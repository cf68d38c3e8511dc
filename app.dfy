/** The module-level state of the studio project file (`player`, `head`,
    `headNodeIdQP`, `introNodesMap`) and the hooks that change it:
    `onPlayerInit` on the classic path; `loadIntroNodes`, `appendHead` and
    `onIntroReady` on the fast-load path. */
module App {
  import opened JsArrays
  import opened HeadNodes
  import opened NodeSets
  import opened Host

  /** The head node the module starts with. */
  const DefaultHead: string := "node_beginning_2430df"

  /** What appending `h` puts on the playlist: each element of an array, any
      other value once. */
  function Appended(h: HeadVal): seq<HeadVal>
  {
    if h.Arr? then h.elems else [h]
  }

  /** The keys of `introNodesMap`; none while it is undefined. */
  function MapKeys(m: Option<set<string>>): set<string>
  {
    if m.Some? then m.value else {}
  }

  class Project {
    /** The generated node list. */
    const nodes: seq<Node>
    /** The host player the hooks receive in `ctx.player`. */
    const player: Player
    var head: HeadVal
    var headNodeIdQP: Option<string>
    /** `None` while `introNodesMap` is still undefined. */
    var introNodesMap: Option<set<string>>

    constructor (nodes: seq<Node>, player: Player)
      ensures this.nodes == nodes && this.player == player
      ensures head == Str(DefaultHead) && headNodeIdQP == None && introNodesMap == None
    {
      this.nodes, this.player := nodes, player;
      head, headNodeIdQP, introNodesMap := Str(DefaultHead), None, None;
    }

    /** Registers every node that carries a decision, in node order. */
    method AddDecisions()
      modifies player
      ensures player.decisions == old(player.decisions) + DecisionIds(nodes)
      ensures player.repo == old(player.repo) && player.added == old(player.added)
      ensures player.playlist == old(player.playlist) && player.replayNode == old(player.replayNode)
    {
      for i := 0 to |nodes|
        invariant player.decisions == old(player.decisions) + DecisionIds(nodes[..i])
        invariant player.repo == old(player.repo) && player.added == old(player.added)
        invariant player.playlist == old(player.playlist) && player.replayNode == old(player.replayNode)
      {
        assert nodes[..i + 1] == nodes[..i] + [nodes[i]];
        DecisionIdsSnoc(nodes[..i], nodes[i]);
        if nodes[i].hasDecision {
          player.AddDecision(nodes[i].id);
        }
      }
      assert nodes[..|nodes|] == nodes;
    }

    /** `onPlayerInit` once its promises have resolved: adds every node,
        registers decisions, settles `head` and appends it. */
    method OnPlayerInit(devHead: HeadVal, qp: Option<string>)
      modifies this, player
      ensures head == PlayerInitRule(old(head), devHead, old(player.repo) + ElemsOf(Ids(nodes)), qp, nodes)
      ensures headNodeIdQP == qp && introNodesMap == old(introNodesMap)
      ensures player.repo == old(player.repo) + ElemsOf(Ids(nodes))
      ensures player.added == old(player.added) + [nodes]
      ensures player.decisions == old(player.decisions) + DecisionIds(nodes)
      ensures player.replayNode == head
      ensures player.playlist == old(player.playlist) + Appended(head)
    {
      player.Add(nodes);
      AddDecisions();
      SettleHead(devHead, qp);
      player.SetReplayNode(head);
      AppendToPlaylist(head);
    }

    /** The head settling of `onPlayerInit`: a truthy valid developer head
        replaces `head`, then the query parameter, once stored, may override it. */
    method SettleHead(devHead: HeadVal, qp: Option<string>)
      modifies this
      ensures head == PlayerInitRule(old(head), devHead, player.repo, qp, nodes)
      ensures headNodeIdQP == qp && introNodesMap == old(introNodesMap)
    {
      if Truthy(devHead) {
        if IsValidHeadNodes(devHead, nodes) {
          head := devHead;
        }
      }
      headNodeIdQP := qp;
      if qp.Some? && qp.value != "" && player.Has(qp.value) {
        head := Str(qp.value);
      }
    }

    /** Appending a head to the playlist: each element of an array, any other
        value once. */
    method AppendToPlaylist(h: HeadVal)
      modifies player
      ensures player.playlist == old(player.playlist) + Appended(h)
      ensures player.repo == old(player.repo) && player.added == old(player.added)
      ensures player.decisions == old(player.decisions) && player.replayNode == old(player.replayNode)
    {
      if h.Arr? {
        player.PushAll(h.elems);
      } else {
        player.Append(h);
      }
    }

    /** `loadIntroNodes`: records the query parameter, fills `introNodesMap`
        and adds the nodes it names to the repository. */
    method LoadIntroNodes(ctxIntroNodes: Option<seq<string>>, qp: Option<string>)
      modifies this, player
      ensures headNodeIdQP == qp && head == old(head)
      ensures introNodesMap == Some(IntroKeys(ctxIntroNodes, head, qp))
      ensures player.added == old(player.added) + [Select(nodes, introNodesMap.value)]
      ensures player.repo == old(player.repo) + ElemsOf(Ids(Select(nodes, introNodesMap.value)))
      ensures player.decisions == old(player.decisions) && player.playlist == old(player.playlist)
      ensures player.replayNode == old(player.replayNode)
    {
      headNodeIdQP := qp;
      var listed := if ctxIntroNodes.Some? then ctxIntroNodes.value else [];
      var m: set<string> := {};
      for i := 0 to |listed|
        invariant m == ElemsOf(listed[..i])
      {
        assert listed[..i + 1] == listed[..i] + [listed[i]];
        m := m + {listed[i]};
      }
      assert listed[..|listed|] == listed;
      assert ctxIntroNodes.None? ==> ElemsOf(listed) == {};
      if head.Str? {
        m := m + {head.s};
      }
      if qp.Some? && qp.value != "" {
        m := m + {qp.value};
      }
      assert m == IntroKeys(ctxIntroNodes, head, qp);
      introNodesMap := Some(m);
      player.Add(Select(nodes, m));
    }

    /** The `reduce` of `appendHead` that asks the repository for each
        normalised id of the developer head. */
    method AllHeadsInRepo(ids: seq<Option<string>>) returns (inRepo: bool)
      ensures inRepo <==> forall k :: 0 <= k < |ids| ==> ids[k].Some? && player.Has(ids[k].value)
    {
      inRepo := true;
      for i := 0 to |ids|
        invariant inRepo <==> forall k :: 0 <= k < i ==> ids[k].Some? && player.Has(ids[k].value)
      {
        inRepo := inRepo && ids[i].Some? && player.Has(ids[i].value);
      }
    }

    /** `appendHead` once the developer head has resolved to `devHead`: picks
        the head, appends it and returns it. */
    method AppendHead(devHead: HeadVal) returns (finalHead: HeadVal)
      modifies player
      ensures finalHead == AppendHeadRule(head, devHead, player.repo, headNodeIdQP, nodes)
      ensures player.playlist == old(player.playlist) + Appended(finalHead)
      ensures player.repo == old(player.repo) && player.added == old(player.added)
      ensures player.decisions == old(player.decisions) && player.replayNode == old(player.replayNode)
    {
      finalHead := head;
      if Truthy(devHead) {
        if IsValidHeadNodes(devHead, nodes) {
          var inRepo := AllHeadsInRepo(NormalisedIds(devHead));
          if inRepo {
            finalHead := devHead;
          }
        }
      }
      if headNodeIdQP.Some? && headNodeIdQP.value != "" && player.Has(headNodeIdQP.value) {
        finalHead := Str(headNodeIdQP.value);
      }
      AppendToPlaylist(finalHead);
    }

    /** `onIntroReady`'s deferred work: adds every node `loadIntroNodes` left
        out, then registers decisions. Before `loadIntroNodes` has run the map
        is undefined, and the filter throws on the first node it tests: with
        nodes to test, `ok` is false and nothing changes; with none, the filter
        never reads the map and the work goes ahead. */
    method OnIntroReady() returns (ok: bool)
      modifies player
      ensures ok <==> introNodesMap.Some? || nodes == []
      ensures ok ==> player.added == old(player.added) + [Reject(nodes, MapKeys(introNodesMap))]
      ensures ok ==> player.repo == old(player.repo) + ElemsOf(Ids(Reject(nodes, MapKeys(introNodesMap))))
      ensures ok ==> player.decisions == old(player.decisions) + DecisionIds(nodes)
      ensures !ok ==> player.added == old(player.added) && player.repo == old(player.repo)
                      && player.decisions == old(player.decisions)
      ensures player.playlist == old(player.playlist) && player.replayNode == old(player.replayNode)
    {
      if introNodesMap.None? && nodes != [] {
        return false;
      }
      player.Add(Reject(nodes, MapKeys(introNodesMap)));
      AddDecisions();
      ok := true;
    }
  }
}
