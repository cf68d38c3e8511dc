/** The host player, seen only through the calls the project makes on it:
    `repository.add` / `repository.has`, `decision.add`, `append`,
    `playlist.push` and `control.replayNode`. */
module Host {
  import opened HeadNodes
  import opened NodeSets

  class Player {
    /** Ids the node repository holds. */
    var repo: set<string>
    /** The argument of each `repository.add` call, in call order. */
    var added: seq<seq<Node>>
    /** The ids handed to `decision.add`, in call order. */
    var decisions: seq<string>
    /** What was appended to the playlist, in order. */
    var playlist: seq<HeadVal>
    /** `control.replayNode`. */
    var replayNode: HeadVal

    /** A player whose repository starts out with the ids `initial`. */
    constructor (initial: set<string>)
      ensures repo == initial && added == [] && decisions == [] && playlist == []
      ensures replayNode == Null
    {
      repo, added, decisions, playlist := initial, [], [], [];
      replayNode := Null;
    }

    /** `repository.has(id)`. */
    predicate Has(id: string)
      reads this
    {
      id in repo
    }

    /** `repository.add(ns)`. */
    method Add(ns: seq<Node>)
      modifies this
      ensures repo == old(repo) + ElemsOf(Ids(ns)) && added == old(added) + [ns]
      ensures decisions == old(decisions) && playlist == old(playlist) && replayNode == old(replayNode)
    {
      repo := repo + ElemsOf(Ids(ns));
      added := added + [ns];
    }

    /** `decision.add(id)`. */
    method AddDecision(id: string)
      modifies this
      ensures decisions == old(decisions) + [id]
      ensures repo == old(repo) && added == old(added) && playlist == old(playlist) && replayNode == old(replayNode)
    {
      decisions := decisions + [id];
    }

    /** `append(h)`: one playlist entry. */
    method Append(h: HeadVal)
      modifies this
      ensures playlist == old(playlist) + [h]
      ensures repo == old(repo) && added == old(added) && decisions == old(decisions) && replayNode == old(replayNode)
    {
      playlist := playlist + [h];
    }

    /** Pushing the elements of `hs` onto the playlist: one entry each, in order. */
    method PushAll(hs: seq<HeadVal>)
      modifies this
      ensures playlist == old(playlist) + hs
      ensures repo == old(repo) && added == old(added) && decisions == old(decisions) && replayNode == old(replayNode)
    {
      playlist := playlist + hs;
    }

    /** Assigning `h` to `control.replayNode`. */
    method SetReplayNode(h: HeadVal)
      modifies this
      ensures replayNode == h
      ensures repo == old(repo) && added == old(added) && decisions == old(decisions) && playlist == old(playlist)
    {
      replayNode := h;
    }
  }
}
