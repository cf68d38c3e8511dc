/** The intro entry point: it merges the developer's intro nodes with the
    studio's, forwards the lifecycle hooks to the developer's intro module, and
    runs the studio's fast-load steps in order. */
module IntroIndex {
  import opened JsArrays
  import opened HeadNodes
  import opened NodeSets
  import opened Host
  import opened App

  /** A property that may or may not hold a function. */
  datatype Callee<!A, R> = Function(apply: A -> R) | NotAFunction

  /** What `safeCall` returns: `true`, or whatever the function returned. */
  datatype CallResult<R> = True | Returned(value: R)

  /** `safeCall`: calls `f` on the remaining arguments when it is a function,
      and otherwise lets the caller carry on with `true`. */
  function SafeCall<A, R>(f: Callee<A, R>, args: A): CallResult<R>
  {
    match f
    case Function(apply) => Returned(apply(args))
    case NotAFunction => True
  }

  /** The developer's `introNodes` export: falsy, one node id, or an array of ids. */
  datatype IntroNodesVal = NoIntroNodes | One(id: string) | Many(ids: seq<string>)

  /** The developer's intro module, as far as this file reads it. */
  datatype DeveloperIntro<!P, !C, R> = DeveloperIntro(
    onPreInit: Callee<C, R>,
    onPostInit: Callee<(P, C), R>,
    onIntroReady: Callee<(P, C), R>,
    introNodes: IntroNodesVal,
    head: HeadVal)

  /** The pre-init hook: the developer's `onPreInit`, given `ctx`. */
  function OnPreInit<P, C, R>(dev: DeveloperIntro<P, C, R>, ctx: C): CallResult<R>
  {
    SafeCall(dev.onPreInit, ctx)
  }

  /** The post-init hook: the developer's `onPostInit`, given the player and `ctx`. */
  function OnPostInit<P, C, R>(dev: DeveloperIntro<P, C, R>, player: P, ctx: C): CallResult<R>
  {
    SafeCall(dev.onPostInit, (player, ctx))
  }

  /** The intro-ready hook: the developer's `onIntroReady`, given the player and `ctx`. */
  function OnIntroReadyHook<P, C, R>(dev: DeveloperIntro<P, C, R>, player: P, ctx: C): CallResult<R>
  {
    SafeCall(dev.onIntroReady, (player, ctx))
  }

  /** The three hooks forward to the developer's intro module: a hook the
      module does not define as a function lets the player carry on with
      `true`, and one it defines gets `ctx` (`onPreInit`) or the player and
      `ctx` (the other two) and its result is passed back unchanged. */
  lemma HooksForwarded<P, C, R>(dev: DeveloperIntro<P, C, R>, player: P, ctx: C)
    ensures dev.onPreInit.NotAFunction? ==> OnPreInit(dev, ctx) == True
    ensures dev.onPostInit.NotAFunction? ==> OnPostInit(dev, player, ctx) == True
    ensures dev.onIntroReady.NotAFunction? ==> OnIntroReadyHook(dev, player, ctx) == True
    ensures dev.onPreInit.Function? ==> OnPreInit(dev, ctx) == Returned(dev.onPreInit.apply(ctx))
    ensures dev.onPostInit.Function? ==> OnPostInit(dev, player, ctx) == Returned(dev.onPostInit.apply((player, ctx)))
    ensures dev.onIntroReady.Function? ==>
              OnIntroReadyHook(dev, player, ctx) == Returned(dev.onIntroReady.apply((player, ctx)))
  {
  }

  /** The developer nodes as an array: `[]` when falsy, a lone id wrapped. */
  function DeveloperList(v: IntroNodesVal): seq<string>
  {
    match v
    case NoIntroNodes => []
    case One(id) => if id == "" then [] else [id]
    case Many(ids) => ids
  }

  /** `consolidateIntroNodes`: the developer list followed by the studio list, through a set. */
  function ConsolidateIntroNodes(dev: IntroNodesVal, studio: seq<string>): seq<string>
  {
    SetFromArray(DeveloperList(dev) + studio)
  }

  /** The merged list holds every developer and every studio node, nothing
      else, and each once. */
  lemma ConsolidateElements(dev: IntroNodesVal, studio: seq<string>)
    ensures NoDuplicates(ConsolidateIntroNodes(dev, studio))
    ensures forall x :: x in ConsolidateIntroNodes(dev, studio) <==> x in DeveloperList(dev) || x in studio
  {
    var all := DeveloperList(dev) + studio;
    var r := ConsolidateIntroNodes(dev, studio);
    forall x
      ensures x in r <==> x in all
    {
      if x in r {
        var i :| 0 <= i < |r| && r[i] == x;
      }
      if x in all {
        var i :| 0 <= i < |all| && all[i] == x;
      }
    }
  }

  /** The developer's nodes come first, each at its first occurrence; the
      studio's nodes the developer did not list follow, each at its first occurrence. */
  lemma {:induction false} ConsolidateDeveloperFirst(dev: IntroNodesVal, studio: seq<string>)
    ensures ConsolidateIntroNodes(dev, studio)
         == Distinct(DeveloperList(dev)) + Filter(Distinct(studio), NotIn(DeveloperList(dev)))
    ensures forall i, j ::
              (0 <= i < |ConsolidateIntroNodes(dev, studio)| && 0 <= j < |ConsolidateIntroNodes(dev, studio)|
               && ConsolidateIntroNodes(dev, studio)[i] in DeveloperList(dev)
               && ConsolidateIntroNodes(dev, studio)[j] !in DeveloperList(dev)) ==> i < j
  {
    var d := DeveloperList(dev);
    DistinctConcat(d, studio);
    var r := ConsolidateIntroNodes(dev, studio);
    var front, back := Distinct(d), Filter(Distinct(studio), NotIn(d));
    assert r == front + back;
  }

  /** A falsy developer value leaves the studio's nodes, each once, in order. */
  lemma ConsolidateFalsyDeveloper(dev: IntroNodesVal, studio: seq<string>)
    requires dev.NoIntroNodes? || dev == One("")
    ensures ConsolidateIntroNodes(dev, studio) == Distinct(studio)
  {
    assert DeveloperList(dev) + studio == studio;
  }

  /** A single developer node leads the merged list. */
  lemma ConsolidateSingleDeveloper(id: string, studio: seq<string>)
    requires id != ""
    ensures ConsolidateIntroNodes(One(id), studio) == [id] + Filter(Distinct(studio), NotIn([id]))
  {
    ConsolidateDeveloperFirst(One(id), studio);
    assert Distinct([id]) == [id] by {
      assert [id][..0] == [];
    }
  }

  /** The fast-load steps of the studio intro, in the order `run` takes them. */
  datatype Step = IntroNodesLoaded | RtsMappingsAdded | ListenersAdded | HeadAppended

  /** The fields of the intro context `run` writes. */
  class Ctx {
    /** `ctx.introNodes` */
    var introNodes: seq<string>
    /** `ctx.intro.introNodes` */
    var introIntroNodes: seq<string>
    /** `ctx.intro.head` */
    var introHead: HeadVal
    /** The studio steps run on this context so far. */
    var steps: seq<Step>

    constructor ()
      ensures introNodes == [] && introIntroNodes == [] && introHead == Null && steps == []
    {
      introNodes, introIntroNodes, introHead, steps := [], [], Null, [];
    }
  }

  /** `run` once its promises have settled: merges the intro nodes, loads
      them, lets the studio add its RTS mappings and listeners, appends the head
      and stores it in the context. */
  method Run<P, C, R>(ctx: Ctx, project: Project, dev: DeveloperIntro<P, C, R>,
                      studio: seq<string>, qp: Option<string>)
    modifies ctx, project, project.player
    ensures ctx.introNodes == ConsolidateIntroNodes(dev.introNodes, studio)
    ensures ctx.introIntroNodes == ctx.introNodes
    ensures ctx.steps == old(ctx.steps) + [IntroNodesLoaded, RtsMappingsAdded, ListenersAdded, HeadAppended]
    ensures project.head == old(project.head) && project.headNodeIdQP == qp
    ensures project.introNodesMap == Some(IntroKeys(Some(ctx.introNodes), project.head, qp))
    ensures project.player.added
         == old(project.player.added) + [Select(project.nodes, project.introNodesMap.value)]
    ensures project.player.repo
         == old(project.player.repo) + ElemsOf(Ids(Select(project.nodes, project.introNodesMap.value)))
    ensures project.player.decisions == old(project.player.decisions)
    ensures project.player.replayNode == old(project.player.replayNode)
    ensures ctx.introHead == AppendHeadRule(project.head, dev.head, project.player.repo, qp, project.nodes)
    ensures project.player.playlist == old(project.player.playlist) + Appended(ctx.introHead)
  {
    var merged := ConsolidateIntroNodes(dev.introNodes, studio);
    project.LoadIntroNodes(Some(merged), qp);
    label loaded:
    var head := project.AppendHead(dev.head);
    assert unchanged@loaded(project);
    ctx.introNodes, ctx.introIntroNodes, ctx.introHead := merged, merged, head;
    ctx.steps := ctx.steps + [IntroNodesLoaded, RtsMappingsAdded, ListenersAdded, HeadAppended];
  }
}
