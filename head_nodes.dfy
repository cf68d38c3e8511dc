/** The project's nodes, the values a developer may give as the head node,
    `isValidHeadNodes`, and the two rules (`onPlayerInit`'s and `appendHead`'s)
    that pick the head node the playlist starts from. */
module HeadNodes {
  import opened JsArrays

  /** One entry of the generated node list: its id and whether its `data`
      carries a `decision`. */
  datatype Node = Node(id: string, hasDecision: bool)

  /** A head value as the developer hands it over, after any head function has
      run and any promise it returned has resolved (a rejected promise gives `Null`). */
  datatype HeadVal =
    | Null                      // null, undefined, false, 0 or NaN
    | Str(s: string)            // a string; "" is falsy
    | Obj(id: string)           // a non-array object with an `id` property
    | ObjNoId                   // a non-array object without an `id`
    | Arr(elems: seq<HeadVal>)  // an array, possibly nested
    | Other                     // true, a non-zero number, ...

  predicate Truthy(h: HeadVal)
  {
    !(h.Null? || h == Str(""))
  }

  /** The node filter's test: the node's id equals `id`. */
  function IdIs(id: string): Node -> bool
  {
    (n: Node) => n.id == id
  }

  /** Some node of `nodes` has id `id`. */
  predicate IsNodeId(nodes: seq<Node>, id: string)
  {
    exists i :: 0 <= i < |nodes| && nodes[i].id == id
  }

  /** Decreases alongside the value, so that an array may hand over to its fold. */
  function Width(h: HeadVal): nat
  {
    if h.Arr? then |h.elems| + 1 else 0
  }

  /** `isValidHeadNodes` against the node list `nodes`. */
  function IsValidHeadNodes(h: HeadVal, nodes: seq<Node>): bool
    decreases h, Width(h)
  {
    if !Truthy(h) then false
    else match h
      case Str(s) => |Filter(nodes, IdIs(s))| > 0
      case Obj(id) => id != "" && |Filter(nodes, IdIs(id))| > 0
      case Arr(elems) => ReduceValid(elems, 0, true, nodes)
      case _ => false
  }

  /** The array branch's left fold, from index `i` on: the accumulator stays true
      only while each element is valid. */
  function ReduceValid(elems: seq<HeadVal>, i: nat, acc: bool, nodes: seq<Node>): bool
    requires i <= |elems|
    decreases Arr(elems), |elems| - i
  {
    if i == |elems| then acc
    else ReduceValid(elems, i + 1, acc && IsValidHeadNodes(elems[i], nodes), nodes)
  }

  lemma {:induction false} ReduceValidAll(elems: seq<HeadVal>, i: nat, acc: bool, nodes: seq<Node>)
    requires i <= |elems|
    ensures ReduceValid(elems, i, acc, nodes)
        <==> acc && forall j :: i <= j < |elems| ==> IsValidHeadNodes(elems[j], nodes)
    decreases |elems| - i
  {
    if i < |elems| {
      ReduceValidAll(elems, i + 1, acc && IsValidHeadNodes(elems[i], nodes), nodes);
    }
  }

  /** A falsy value, an object without an id and any other non-string,
      non-object value are never valid. */
  lemma InvalidHeadKinds(nodes: seq<Node>)
    ensures !IsValidHeadNodes(Null, nodes) && !IsValidHeadNodes(Str(""), nodes)
    ensures !IsValidHeadNodes(ObjNoId, nodes) && !IsValidHeadNodes(Obj(""), nodes)
    ensures !IsValidHeadNodes(Other, nodes)
  {
  }

  /** A string is valid exactly when it is the id of some node. */
  lemma StringHeadValid(s: string, nodes: seq<Node>)
    ensures IsValidHeadNodes(Str(s), nodes) <==> s != "" && IsNodeId(nodes, s)
  {
    FilterNonEmpty(nodes, IdIs(s));
  }

  /** An object is valid exactly when its `id` is truthy and is the id of some node. */
  lemma ObjectHeadValid(id: string, nodes: seq<Node>)
    ensures IsValidHeadNodes(Obj(id), nodes) <==> id != "" && IsNodeId(nodes, id)
  {
    FilterNonEmpty(nodes, IdIs(id));
  }

  /** An array is valid exactly when each of its elements is; so `[]` is valid. */
  lemma ArrayHeadValid(elems: seq<HeadVal>, nodes: seq<Node>)
    ensures IsValidHeadNodes(Arr(elems), nodes)
        <==> forall j :: 0 <= j < |elems| ==> IsValidHeadNodes(elems[j], nodes)
    ensures IsValidHeadNodes(Arr([]), nodes)
  {
    ReduceValidAll(elems, 0, true, nodes);
  }

  /** The id of one element of a developer head: a string is its own id, an
      object gives its `id`; `None` is `undefined` (a nested array has no `id`).
      Only elements of valid heads get here, so reading the id of `null`,
      which would throw, does not arise. */
  function ElemId(h: HeadVal): Option<string>
  {
    match h
    case Str(s) => Some(s)
    case Obj(id) => Some(id)
    case _ => None
  }

  /** The developer head normalised to an array of ids: `[devHead]` unless it is
      an array, then each element mapped through `ElemId`. */
  function NormalisedIds(h: HeadVal): (ids: seq<Option<string>>)
    ensures |ids| == if h.Arr? then |h.elems| else 1
  {
    var hs := if h.Arr? then h.elems else [h];
    seq(|hs|, k requires 0 <= k < |hs| => ElemId(hs[k]))
  }

  /** Every normalised id is defined and held by the repository (which holds no
      `undefined` key). */
  predicate AllInRepo(ids: seq<Option<string>>, repo: set<string>)
  {
    forall k :: 0 <= k < |ids| ==> ids[k].Some? && ids[k].value in repo
  }

  /** The `headnodeid` query parameter is set (truthy) and names a node the
      repository holds. */
  predicate QueryParamOverrides(qp: Option<string>, repo: set<string>)
  {
    qp.Some? && qp.value != "" && qp.value in repo
  }

  /** `appendHead` takes the developer head: it is truthy, valid, and every one
      of its normalised ids is already in the repository. */
  predicate AppendHeadAccepts(devHead: HeadVal, repo: set<string>, nodes: seq<Node>)
  {
    Truthy(devHead) && IsValidHeadNodes(devHead, nodes) && AllInRepo(NormalisedIds(devHead), repo)
  }

  /** The head `appendHead` appends and returns, given the module's `head`, the
      resolved developer head, the repository, the stored query parameter and the nodes. */
  function AppendHeadRule(head: HeadVal, devHead: HeadVal, repo: set<string>,
                          qp: Option<string>, nodes: seq<Node>): HeadVal
  {
    var finalHead := if AppendHeadAccepts(devHead, repo, nodes) then devHead else head;
    if QueryParamOverrides(qp, repo) then Str(qp.value) else finalHead
  }

  /** The head `onPlayerInit` settles on: a truthy valid developer head replaces
      `head`, then the query parameter overrides both. */
  function PlayerInitRule(head: HeadVal, devHead: HeadVal, repo: set<string>,
                          qp: Option<string>, nodes: seq<Node>): HeadVal
  {
    var h := if Truthy(devHead) && IsValidHeadNodes(devHead, nodes) then devHead else head;
    if QueryParamOverrides(qp, repo) then Str(qp.value) else h
  }

  /** A query parameter the repository holds wins over any developer head. */
  lemma AppendHeadQueryParamWins(head: HeadVal, devHead: HeadVal, repo: set<string>,
                                 qp: Option<string>, nodes: seq<Node>)
    requires QueryParamOverrides(qp, repo)
    ensures AppendHeadRule(head, devHead, repo, qp, nodes) == Str(qp.value)
  {
  }

  /** Without that override the developer head is taken exactly when it is
      truthy, valid and already in the repository; otherwise the module's `head` stays. */
  lemma AppendHeadDeveloperChoice(head: HeadVal, devHead: HeadVal, repo: set<string>,
                                  qp: Option<string>, nodes: seq<Node>)
    requires !QueryParamOverrides(qp, repo)
    ensures AppendHeadAccepts(devHead, repo, nodes) ==> AppendHeadRule(head, devHead, repo, qp, nodes) == devHead
    ensures !AppendHeadAccepts(devHead, repo, nodes) ==> AppendHeadRule(head, devHead, repo, qp, nodes) == head
  {
  }

  /** A developer head that `appendHead` accepts names nodes of the project only:
      it is not an array of arrays, and each of its ids is a node id. */
  lemma {:induction false} AcceptedHeadIdsAreNodes(devHead: HeadVal, repo: set<string>, nodes: seq<Node>)
    requires AppendHeadAccepts(devHead, repo, nodes)
    ensures forall k :: 0 <= k < |NormalisedIds(devHead)| ==>
              NormalisedIds(devHead)[k].Some? && IsNodeId(nodes, NormalisedIds(devHead)[k].value)
  {
    var ids := NormalisedIds(devHead);
    var hs := if devHead.Arr? then devHead.elems else [devHead];
    if devHead.Arr? {
      ArrayHeadValid(devHead.elems, nodes);
    }
    forall k | 0 <= k < |ids|
      ensures ids[k].Some? && IsNodeId(nodes, ids[k].value)
    {
      assert ids[k] == ElemId(hs[k]);
      assert IsValidHeadNodes(hs[k], nodes);
      match hs[k]
      case Str(s) => StringHeadValid(s, nodes);
      case Obj(id) => ObjectHeadValid(id, nodes);
      case _ =>
    }
  }

  /** A valid head whose array holds an array is still never appended, because
      a nested array has no `id` to look up in the repository. */
  lemma NestedArrayHeadRejected(elems: seq<HeadVal>, k: nat, repo: set<string>, nodes: seq<Node>)
    requires k < |elems| && elems[k].Arr?
    ensures !AppendHeadAccepts(Arr(elems), repo, nodes)
  {
    var ids := NormalisedIds(Arr(elems));
    assert ids[k] == ElemId(elems[k]) == None;
  }

  /** When the module's `head` is a node the repository holds, every id of the
      head `appendHead` picks is in the repository. */
  lemma {:induction false} AppendHeadInRepo(head: HeadVal, devHead: HeadVal, repo: set<string>,
                                            qp: Option<string>, nodes: seq<Node>)
    requires AllInRepo(NormalisedIds(head), repo)
    ensures AllInRepo(NormalisedIds(AppendHeadRule(head, devHead, repo, qp, nodes)), repo)
  {
    if QueryParamOverrides(qp, repo) {
      var ids := NormalisedIds(Str(qp.value));
      assert ids[0] == ElemId(Str(qp.value)) == Some(qp.value);
    }
  }

  /** `appendHead` is the stricter of the two rules: a developer head it takes,
      `onPlayerInit` takes too. */
  lemma AppendHeadStricter(head: HeadVal, devHead: HeadVal, repo: set<string>,
                           qp: Option<string>, nodes: seq<Node>)
    requires AppendHeadAccepts(devHead, repo, nodes)
    ensures PlayerInitRule(head, devHead, repo, qp, nodes) == AppendHeadRule(head, devHead, repo, qp, nodes)
  {
  }

  /** No element of `h` is itself an array. */
  predicate NoNestedArray(h: HeadVal)
  {
    h.Arr? ==> forall k :: 0 <= k < |h.elems| ==> !h.elems[k].Arr?
  }

  /** Over a repository that holds every node, as after `onPlayerInit` has
      added them, the two rules pick the same head for any developer head
      without a nested array. (A valid nested array is where they part:
      `onPlayerInit` takes it, `appendHead` never does.) */
  lemma {:induction false} PlayerInitMatchesAppendHead(head: HeadVal, devHead: HeadVal, repo: set<string>,
                                                       qp: Option<string>, nodes: seq<Node>)
    requires forall i :: 0 <= i < |nodes| ==> nodes[i].id in repo
    requires NoNestedArray(devHead)
    ensures PlayerInitRule(head, devHead, repo, qp, nodes) == AppendHeadRule(head, devHead, repo, qp, nodes)
  {
    if Truthy(devHead) && IsValidHeadNodes(devHead, nodes) {
      var ids := NormalisedIds(devHead);
      var hs := if devHead.Arr? then devHead.elems else [devHead];
      if devHead.Arr? {
        ArrayHeadValid(devHead.elems, nodes);
      }
      forall k | 0 <= k < |ids|
        ensures ids[k].Some? && ids[k].value in repo
      {
        assert ids[k] == ElemId(hs[k]);
        assert IsValidHeadNodes(hs[k], nodes);
        match hs[k]
        case Str(s) => StringHeadValid(s, nodes);
        case Obj(id) => ObjectHeadValid(id, nodes);
        case Arr(_) => assert false;
        case _ =>
      }
      assert AppendHeadAccepts(devHead, repo, nodes);
    }
  }

  /** In `onPlayerInit` an invalid developer head leaves `head` as it was, unless
      the query parameter overrides it. */
  lemma PlayerInitInvalidKeepsHead(head: HeadVal, devHead: HeadVal, repo: set<string>,
                                   qp: Option<string>, nodes: seq<Node>)
    requires !IsValidHeadNodes(devHead, nodes)
    ensures PlayerInitRule(head, devHead, repo, qp, nodes)
         == if QueryParamOverrides(qp, repo) then Str(qp.value) else head
  {
  }
}
