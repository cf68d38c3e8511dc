# Head-node selection and intro-node sets of an interactive-video project

This project models the logic inside a plugin project for an interactive-video
player. The logic decides which nodes the player loads first and which node the
playlist starts from:

- `isValidHeadNodes` checks a developer-supplied head against the project's
  node list. The head may be a string id, an object with an `id`, or a
  (possibly nested) array of these.
- Two rules pick the head. `onPlayerInit` uses the older one; `appendHead` on
  the fast-load path uses the newer one. Each starts from the module's default
  head `node_beginning_2430df` and may take the developer head. Then a
  `headnodeid` query parameter that names a node in the repository overrides
  the choice.
- `loadIntroNodes` builds `introNodesMap` and adds the nodes it names to the
  repository. Later, `onIntroReady` adds every other node. Nodes carrying a
  decision are registered with the decision plugin.
- The intro entry point merges the developer's intro nodes with the studio's.
  The merge keeps order and drops duplicates. `safeCall` forwards the
  lifecycle hooks, and `run` executes the studio's fast-load steps in order.

The host player is reduced to what the project does with it. The `Host.Player`
class holds the set of ids in the node repository, the argument of each
`repository.add` call, the ids passed to `decision.add`, the playlist and
`control.replayNode`. The module-level variables of the project file (`head`,
`headNodeIdQP`, `introNodesMap`) are fields of `App.Project`, and its hooks are
methods. Each method's `ensures` ties the new state to a pure function in
`HeadNodes` or `NodeSets`, and the lemmas there state what those functions
promise. JavaScript values are modelled as datatypes:

- `HeadVal` is a head value. `Null` stands for any falsy value except `""`,
  which is `Str("")`.
- `IntroNodesVal` is the developer's `introNodes` export.
- `Callee` is a property that may or may not hold a function.

Modules, one per file:

- `JsArrays` (js_arrays.dfy): `Array.prototype.filter` and
  `Array.from(new Set(xs))`. The set is modelled as insertion into a list that
  skips elements it already holds. It is proved equal to `Distinct`, the
  first-occurrence sequence.
- `HeadNodes` (head_nodes.dfy): nodes, head values, `isValidHeadNodes`, the
  normalisation of a developer head to ids, and the two head rules.
- `NodeSets` (node_sets.dfy): the keys of `introNodesMap`, the two filters over
  the node list, and the decision ids.
- `Host` (host.dfy): the player.
- `App` (app.dfy): the project file's module state and its hooks.
- `IntroIndex` (intro_index.dfy): `safeCall`, the three forwarded hooks, the
  developer-list normalisation `DeveloperList`, `consolidateIntroNodes` and
  `run`.

Several members are plain definitions that model the source directly; their
contracts are stated by the lemmas and methods named beside them:

| definition | source | its promises are stated by |
|---|---|---|
| `HeadNodes.IsValidHeadNodes`, `HeadNodes.ReduceValid` | src/_eko_/js/app.js:13-27 | `InvalidHeadKinds`, `StringHeadValid`, `ObjectHeadValid`, `ArrayHeadValid`, `ReduceValidAll` |
| `HeadNodes.AppendHeadRule` | src/_eko_/js/app.js:195-245 | `AppendHeadQueryParamWins`, `AppendHeadDeveloperChoice`, `AcceptedHeadIdsAreNodes`, `AppendHeadInRepo`, `NestedArrayHeadRejected`, `App.Project.AppendHead` |
| `HeadNodes.PlayerInitRule` | src/_eko_/js/app.js:90-109 | `PlayerInitInvalidKeepsHead`, `AppendHeadStricter`, `PlayerInitMatchesAppendHead`, `App.Project.SettleHead` |
| `NodeSets.IntroKeys` | src/_eko_/js/app.js:177-186 | `IntroKeysContain`, `App.Project.LoadIntroNodes` |
| `NodeSets.Select` | src/_eko_/js/app.js:189 | `IntroRestPartition`, `App.Project.LoadIntroNodes` |
| `NodeSets.Reject` | src/_eko_/js/app.js:263 | `IntroRestPartition`, `App.Project.OnIntroReady` |
| `NodeSets.DecisionIds` | src/_eko_/js/app.js:62-66, 266-270 | `DecisionIdsExact`, `App.Project.AddDecisions` |
| `IntroIndex.ConsolidateIntroNodes` | src/_eko_/introIndex.js:18-25 | `ConsolidateElements`, `ConsolidateDeveloperFirst`, `ConsolidateFalsyDeveloper`, `ConsolidateSingleDeveloper` |
| `IntroIndex.DeveloperList` | src/_eko_/introIndex.js:19-23 | `ConsolidateFalsyDeveloper`, `ConsolidateSingleDeveloper` |
| `IntroIndex.SafeCall`, `OnPreInit`, `OnPostInit`, `OnIntroReadyHook` | src/_eko_/introIndex.js:7-14, 31-41 | `HooksForwarded` |
| `Host.Player.Has` | src/_eko_/js/app.js:107, 232, 243 | `App.Project.AllHeadsInRepo`, `App.Project.SettleHead`, `App.Project.AppendHead` |

Two points about the code that the model makes explicit:

- The intro-node merge keeps first-occurrence order, developer nodes first
  (`ConsolidateDeveloperFirst`), rather than producing an unordered set.
- Only `appendHead` checks that the head ids are already in the repository
  (app.js:232). `onPlayerInit` accepts any valid developer head, after adding
  every node to the repository. Over a repository that holds every node, as in
  `onPlayerInit`, the two rules agree on every head without a nested array
  (`PlayerInitMatchesAppendHead`); a valid array holding an array is taken by
  `onPlayerInit` and never by `appendHead` (`NestedArrayHeadRejected`). On the
  fast-load path `appendHead` runs after `loadIntroNodes` has added only the
  intro nodes, so a valid developer head whose ids are not all intro nodes is
  refused there and the module's `head` stays (`AppendHeadDeveloperChoice`),
  where `onPlayerInit` would have taken it.

## Model

| member | source | states |
|---|---|---|
| JsArrays.Filter | src/_eko_/js/app.js:189 | a filter keeps at most the input's length, and keeps only elements that satisfy the predicate |
| JsArrays.FilterMember | src/_eko_/js/app.js:189 | an element is in the filtered array exactly when it is in the input and satisfies the predicate |
| JsArrays.FilterNonEmpty | src/_eko_/js/app.js:18 | `filter(...).length > 0` holds exactly when some element satisfies the predicate |
| JsArrays.FilterPartition | src/_eko_/js/app.js:263 | filtering by a predicate and by its negation splits the input: the two multisets add up to the input's |
| JsArrays.Distinct | src/_eko_/introIndex.js:24 | the first-occurrence sequence holds every input element, only input elements, and none twice |
| JsArrays.DistinctConcat | src/_eko_/introIndex.js:24 | the first occurrences of `a + b` are those of `a`, then those of `b` that are not in `a`, in order |
| JsArrays.InsertAllDistinct | src/_eko_/introIndex.js:24 | filling a set whose order is the first occurrences of `done` from `rest` gives the first occurrences of `done + rest` |
| JsArrays.SetFromArray | src/_eko_/introIndex.js:24 | `Array.from(new Set(s))` is the first-occurrence sequence of `s` |
| HeadNodes.ReduceValidAll | src/_eko_/js/app.js:23-24 | the `reduce` over an array head is true exactly when the accumulator is true and every remaining element is valid |
| HeadNodes.InvalidHeadKinds | src/_eko_/js/app.js:13-26 | falsy values (null, undefined, `""`), objects without a truthy `id`, and any other value are invalid |
| HeadNodes.StringHeadValid | src/_eko_/js/app.js:17-18 | a string head is valid exactly when it is non-empty and some node has that id |
| HeadNodes.ObjectHeadValid | src/_eko_/js/app.js:20-21 | an object head is valid exactly when its `id` is truthy and some node has that id |
| HeadNodes.ArrayHeadValid | src/_eko_/js/app.js:23-24 | an array head is valid exactly when every element is recursively valid; the empty array is valid |
| HeadNodes.NormalisedIds | src/_eko_/js/app.js:226-229 | normalising gives one id per array element, or one id for a non-array head |
| HeadNodes.AppendHeadQueryParamWins | src/_eko_/js/app.js:242-245 | in `appendHead`, a truthy query parameter that the repository holds is the result, whatever the developer head |
| HeadNodes.AppendHeadDeveloperChoice | src/_eko_/js/app.js:195-240 | without that override, `appendHead` returns the developer head when it is truthy, valid and has all its ids in the repository, and otherwise the module's `head` |
| HeadNodes.AcceptedHeadIdsAreNodes | src/_eko_/js/app.js:221-237 | a developer head that `appendHead` accepts has only defined ids, and each is the id of a project node |
| HeadNodes.NestedArrayHeadRejected | src/_eko_/js/app.js:226-233 | an array head holding an array is never accepted by `appendHead`: the inner array has no `id` to look up |
| HeadNodes.AppendHeadInRepo | src/_eko_/js/app.js:195-245 | if the module's `head` is in the repository, every id of the head `appendHead` picks is in the repository |
| HeadNodes.AppendHeadStricter | src/_eko_/js/app.js:92-98 | a developer head that `appendHead` accepts leads `onPlayerInit` to the same head |
| HeadNodes.PlayerInitMatchesAppendHead | src/_eko_/js/app.js:92-109 | over a repository holding every node id, the `onPlayerInit` rule and the `appendHead` rule (lines 219-245) pick the same head for any developer head without a nested array |
| HeadNodes.PlayerInitInvalidKeepsHead | src/_eko_/js/app.js:92-109 | in `onPlayerInit`, an invalid developer head leaves `head` unchanged unless the query parameter overrides it |
| NodeSets.IntroKeysContain | src/_eko_/js/app.js:177-186 | the intro map holds every listed intro node, the current string head, and the query parameter when it is set |
| NodeSets.IntroRestPartition | src/_eko_/js/app.js:263 | the nodes added by `loadIntroNodes` (line 189) and by `onIntroReady` together make up the node list, each node once; they share no id, and the first are exactly the nodes whose id is an intro key |
| NodeSets.DecisionIdsExact | src/_eko_/js/app.js:266-270 | the ids registered with the decision plugin are exactly those of the nodes carrying a decision, and there are no more of them than nodes |
| Host.Player.Add | src/_eko_/js/app.js:189 | `repository.add` records the call and adds the nodes' ids to the repository; nothing else changes |
| Host.Player.AddDecision | src/_eko_/js/app.js:268 | `decision.add` appends one id to the registered decisions; nothing else changes |
| Host.Player.Append | src/_eko_/js/app.js:251 | `append` puts one entry on the playlist; nothing else changes |
| Host.Player.PushAll | src/_eko_/js/app.js:249 | pushing an array head puts each element on the playlist, in order; nothing else changes |
| Host.Player.SetReplayNode | src/_eko_/js/app.js:112 | sets `control.replayNode`; nothing else changes |
| App.Project.constructor | src/_eko_/js/app.js:8-11 | the module starts with head `node_beginning_2430df`, no query parameter and no intro map |
| App.Project.AddDecisions | src/_eko_/js/app.js:62-66 | the decision loop registers exactly the decision ids of the node list, in node order, and leaves the repository and playlist alone |
| App.Project.OnPlayerInit | src/_eko_/js/app.js:57-151 | `onPlayerInit` adds all nodes, registers decisions, sets `head` by the `onPlayerInit` rule over the filled repository, sets `replayNode` to it and appends it |
| App.Project.SettleHead | src/_eko_/js/app.js:90-109 | `head` becomes what the `onPlayerInit` rule picks over the current repository, and the query parameter is stored |
| App.Project.AppendToPlaylist | src/_eko_/js/app.js:146-151 | the playlist grows by each element of an array head, or by the head once otherwise; nothing else on the player changes |
| App.Project.LoadIntroNodes | src/_eko_/js/app.js:167-192 | `loadIntroNodes` stores the query parameter, sets the intro map to the intro keys, and adds exactly the nodes whose id is a key, in node order |
| App.Project.AllHeadsInRepo | src/_eko_/js/app.js:232 | the `reduce` over the normalised ids is true exactly when every id is defined and in the repository |
| App.Project.AppendHead | src/_eko_/js/app.js:194-255 | `appendHead` returns the head given by the `appendHead` rule, and the playlist grows by exactly that value: element-wise for an array, once otherwise |
| App.Project.OnIntroReady | src/_eko_/js/app.js:257-275 | `onIntroReady` adds exactly the nodes whose id is not an intro key, then registers decisions; while the map is undefined it fails without effect when there are nodes to filter, and with no nodes it adds the empty list and succeeds |
| IntroIndex.HooksForwarded | src/_eko_/introIndex.js:7-14 | each of the three hooks (lines 31-41) yields `true` when the developer module does not define it as a function, and otherwise passes back the developer function's result on `ctx` (`onPreInit`) or on the player and `ctx` |
| IntroIndex.ConsolidateElements | src/_eko_/introIndex.js:18-25 | the merged list has no duplicates and holds exactly the developer and studio nodes |
| IntroIndex.ConsolidateDeveloperFirst | src/_eko_/introIndex.js:24 | the merged list is the developer nodes at their first occurrence, followed by the studio-only nodes at their first occurrence; every developer node comes before every studio-only node |
| IntroIndex.ConsolidateFalsyDeveloper | src/_eko_/introIndex.js:21-22 | with a falsy developer value the result is the studio list without duplicates |
| IntroIndex.ConsolidateSingleDeveloper | src/_eko_/introIndex.js:20 | a single developer node leads the result, followed by the other studio nodes |
| IntroIndex.Run | src/_eko_/introIndex.js:43-64 | `run` stores the merged list in `ctx.introNodes` and, as an array, in `ctx.intro.introNodes`; it loads intro nodes, adds RTS mappings, adds listeners and appends the head, in that order, and stores that head in `ctx.intro.head`; the repository grows by exactly the intro nodes before the head is picked, and the decisions and `replayNode` stay as they were |

## Left out

- Promise and timer plumbing (`ctx.when`, `ctx.when.all`, `setTimeout`, a head
  function and its promise, rejection handling) is not modelled. Methods take
  the resolved developer head as a `HeadVal`; a rejected head promise resolves
  to `null`, which is `Null`.
- The `headnodeid` lookup through `window.InterludePlayer` is not modelled. It is
  an `Option<string>` parameter.
- Host calls with no visible implementation are not modelled:
  `ui.createFromConfig`, `subtitles.attach`, `end.setOverlay`,
  `controlbar.setOptions` and the `rtsPreview` promise. `console.error` is also
  left out.
- `addVariablesToCtx` (its `deepmerge`), `loadApp`, `onLoad`, `onStarted` and
  `onEnd` are not modelled. They only pass data to the host or do nothing.
- The JSON imports (`nodes`, `ui`, `subtitlesMap`, settings, player options)
  are data. `nodes` is a constructor parameter of `App.Project`; each node keeps
  only its id and whether `data.decision` is truthy.
- The module variable `player` is assigned from `ctx.player` by `onPlayerInit`
  (app.js:45) and `loadIntroNodes` (app.js:168); the other hooks only read it.
  The model fixes one player when `App.Project` is constructed.
- `introNodesMap` is a plain object, so an id that names an
  `Object.prototype` member (`toString`, `constructor`, ...) reads as truthy at
  app.js:189 and app.js:263 without being a key. `NodeSets.Select` and
  `NodeSets.Reject` test membership in the set of keys and do not model that.
- IntroIndex.HooksForwarded states only the implications from "is a function"
  and "is not a function" to the result. `CallResult` keeps the default `True`
  apart from a developer hook that returns `true`; in JavaScript these are the
  same value, so the result alone does not tell which case happened.
- App.Project.AppendToPlaylist (used by `onPlayerInit` and `appendHead`) models
  `player.playlist.push.apply(player, head)` by its intent: each element of an
  array head goes on the playlist. As written, `push` runs with the player, not
  the playlist, as `this`.
- App.Project.LoadIntroNodes adds the key for `head` only when `head` is a
  string. JavaScript turns a non-string head into a property key such as
  `"a,b"` or `"[object Object]"`. On the fast-load path `head` is still the
  initial string, because only `onPlayerInit` replaces it.
- `src/_eko_/js/intro.js` is not part of this model. `run` imports its studio
  intro module from that file. IntroIndex.Run assumes that module's
  `loadIntroNodes` and `appendHead` are those of `src/_eko_/js/app.js`. Its
  `addRtsMappings` and `addListeners` have no visible body and are recorded only
  as steps. The studio's intro-node list is a parameter.
- IntroIndex.Run hands the merged list to `loadIntroNodes` directly and
  writes the `ctx` fields once, after the steps; no modelled step reads them
  in between.
- IntroIndex.Run does not model the dead branch `[ctx.introNodes]` of the
  normalisation. The merged value is always an array.
- Node ids and intro nodes are strings. A JavaScript `Set` would also
  deduplicate other values by identity. The repository holds no `undefined`
  key, so `has(undefined)` is false.
- `src/js/components/FancyButton/FancyButton.jsx` (a presentational UI
  override) and `src/js/app.js` (a one-line UI override call) are not modelled.
