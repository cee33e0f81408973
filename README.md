# Focus transition of the WordNet synonym graph

This project models the core of a small three.js front end. The front end shows a
term at the centre of a 3-D cloud of its synonyms. Clicking a synonym in the
ring makes it the new centre: its term document is fetched, the cloud is
recentred on it, and the ring is rebuilt around it.

The model covers the following parts of the repository:

- **Ring diff** (`RingDiff`, `Lists`): the order-preserving `intersect` and
  `subtract` filters, and the split of the on-screen ids into `shared`,
  `former` and `current`.
- **Cancellation manager** (`Cancellation`): the `PendingTimers` set with
  `delay` and `clearAllDelays`, the `TransitionManager` singleton with its
  tokens, `begin`, `cancelAll` and `track`, and the registration of an
  animation's `cancel` by `rafProgress`.
- **Expansion on the manager** (`Stagger`): the `delay` of each staggered
  task, the tweens the fired delays start, the old centre's collapse, and a
  newer `begin` cutting in, with the cancel callbacks each step leaves on
  the transition's token.
- **Node registry** (`GraphState`): the `byId` map, the ordered clickable ring
  `nodeObjects`, and `registerNode`, `removeNode`, `clearNodeGroup` and
  `currentSynIdsFromScene`. All of these work over the scene's `nodeGroup`
  (`SceneGraph`).
- **Graph build** (`GraphBuild`): `buildGraph`.
- **Geometry of a transition** (`Recenter`, `Vectors`): the bake of the group
  translation into its children, the recentering translation, and the spawn
  point of a new sprite.
- **Orchestrator** (`Transition`): `transitionToNode`, step by step, including
  its early exits, the centre bookkeeping, the old-centre branch, the former
  collapses, the fresh sprites and the final prune.
- **Timing** (`Timing`): the easing curve, the durations read from the
  configuration (`?? 900` and `|| 500`) and the serial/parallel schedule table.
- **Configuration** (`Config`): the `CONFIG` record and `createConfig`.

Positions are triples of reals. Every identity about positions is therefore
exact in the model, while the JavaScript doubles satisfy it only approximately.

The source awaits at several points, and at each of them a newer transition
can call `begin` and cancel this one. `transitionToNode` takes an
`Interruption` input that says which await, if any, is hit:

- the fetch;
- the recenter, after a frame with a given progress;
- the expansion animations.

For the last case the input says how many `delay` timers had fired, how many
former collapses had completed, and whether the old centre's collapse had.
Whether the call then waits forever on a cleared timer is derived from these,
not given. The newer transition's `begin` is modelled as a second `Begin` on
the same manager. The document the fetch returns, or the fact that it threw,
is an input too.

The mutable state is kept in classes:

- `Registry` holds `byId`, the ring and the centred slot, over a `Group`.
- `Group` holds the ordered children, the translation and `userData.center`.
- `Node` holds the sprite's id, term, position and role flags.
- `TransitionManager` and `Token` hold the cancellation state.

The source's loops are methods with loop invariants. The target map, the
prune, `removeNode` over a list, drawing the synonyms and spawning the fresh
sprites are proved against a specification function. The bake, settling the
shared nodes, and starting, firing and settling the staggered tasks state
their whole effect directly in their postconditions.

## Model

| member | source | states |
|---|---|---|
| Lists.IndexOf | src/graph/state.js:27 | the first index holding the element, or -1 exactly when it is absent |
| Lists.RemoveFirst | src/graph/state.js:27-28 | `indexOf` then `splice(i, 1)`: an absent element leaves the list as it was, and a present one shortens it by exactly one; `Lists.RemoveFirstCount` says which entry goes |
| Lists.RemoveFirstCount | src/graph/state.js:27-28 | the splice removes one copy of the element and nothing else: the multiset loses exactly that copy, or nothing when the element is absent |
| Lists.Intersect | src/flow/transition.js:14 | holds exactly the elements of `A` that are in `B` |
| Lists.Subtract | src/flow/transition.js:15 | holds exactly the elements of `A` that are not in `B` |
| Lists.FiltersKeepOrder | src/flow/transition.js:14-15 | both filters are subsequences of `A`, and each keeps the full multiplicity of the elements it selects and none of the others |
| Lists.IntersectSubtractPartition | src/flow/transition.js:14-15 | `intersect` and `subtract` split `A`: their multisets sum to `A`'s, and no element lands in both |
| Lists.Dedup | src/flow/transition.js:171 | `[...new Set(xs)]` has the same elements, without duplicates, and is no longer than the input; `Lists.DedupFirstOccurrence` adds the order |
| Lists.DedupFirstOccurrence | src/flow/transition.js:171 | the kept elements come in the order of their first occurrences in the input |
| Lists.RemoveFirstNoDup | src/graph/state.js:27-28 | in a list without duplicates, the splice removes the element altogether and equals filtering it out |
| Lists.RemoveFirstIdempotent | src/graph/state.js:27-28 | removing twice equals removing once when there are no duplicates |
| Config.CreateConfig | src/config.js:50-52 | the result's keys are the union of `CONFIG`'s and the overrides'; override keys take the override value, and the other keys keep `CONFIG`'s |
| Config.CreateConfigDefault | src/config.js:50-51 | `createConfig()` with the default empty overrides equals `CONFIG` |
| Timing.EaseInOutQuad | src/flow/transition.js:11 | the curve maps 0, 1/2 and 1 to themselves |
| Timing.EaseSymmetric | src/flow/transition.js:11 | the curve is point-symmetric about the midpoint: `e(1 - t) = 1 - e(t)` |
| Timing.EaseMonotone | src/flow/transition.js:11 | on [0, 1] the curve stays within [0, 1] and never decreases |
| Timing.ExpandBase | src/flow/transition.js:195 | `ANIM_EXPAND_MS ?? 900` is never nullish; it is the setting whenever that is not nullish, whatever its type, and otherwise 900 |
| Timing.TranslateDuration | src/flow/transition.js:180 | `ANIM_TRANSLATE_MS \|\| 500` is never falsy; it is the setting whenever that is truthy, and otherwise 500 |
| Timing.DefaultTimings | src/config.js:37-39 | with the shipped record the base duration is 950 and the recenter lasts 1000; the side-by-side plan is shared 0–950, former 0–570 and fresh 142.5–950 |
| Timing.ExpandOverride | src/config.js:50-52 | overriding `ANIM_EXPAND_MS` with `null` brings back 900, and any other override value is used as it is |
| Timing.TranslateOverride | src/config.js:50-52 | overriding `ANIM_TRANSLATE_MS` with `0` or another falsy value brings back 500, and a truthy one is used as it is |
| Timing.MakeSchedule | src/flow/transition.js:196-204 | `gate` holds exactly in serial mode; serial phases chain end to start (former starts where shared ends, fresh where former ends); in parallel mode shared and fresh end at `D` and former at `0.6·D`; for `D >= 0` the start delays are ordered shared, former, fresh |
| TermDocs.PresentIds | src/flow/transition.js:170 | the fetched ids `B` are truthy ids of list entries, and every truthy id of the list is among them |
| TermDocs.LastPos | src/flow/transition.js:21 | `None` exactly when no entry has the key; otherwise the position of an entry with that key after which no entry has it |
| TermDocs.BuildTargetMap | src/flow/transition.js:18-24 | the keys are the document's key and the synonyms' keys; a synonym key maps to the last synonym's position under that key, and the document's key maps to the origin, overriding a synonym with the same key |
| RingDiff.Diff | src/flow/transition.js:168-175 | `shared`, `former` and `current` are characterised by membership in `A`, `Aplus` and `B`; they are pairwise disjoint; `A` is covered by shared and former, and `B` by shared and current; the clicked id is never former; each set is an order-preserving subsequence of its source |
| RingDiff.OldCenterShared | src/flow/transition.js:171-175 | the old centre's id is shared exactly when it is fetched again, and it is never current |
| RingDiff.DiffShape | src/flow/transition.js:168-175 | the exact split of a two-entry ring whose old centre is fetched again together with two new ids |
| RingDiff.DiffExample | src/flow/transition.js:168-175 | clicking "money" in ring `[money, river]` with old centre "bank" and `B = [cash, bank, wealth]` gives shared `[bank]`, former `[river]` and current `[cash, wealth]` |
| Cancellation.Token.constructor | src/flow/transition.js:43 | `newToken`: not cancelled, with no callbacks |
| Cancellation.TransitionManager.constructor | src/flow/transition.js:39-41 | no current token, nothing tracked and no pending timers |
| Cancellation.TransitionManager.Delay | src/flow/transition.js:28-34 | a new timer handle, never pending before, joins `PendingTimers`, and when there is a token, exactly one callback clearing that timer is appended to it |
| Cancellation.TransitionManager.FireTimer | src/flow/transition.js:30 | a timer fires, and its promise resolves, exactly when it is still pending; it then leaves the set |
| Cancellation.TransitionManager.ClearAllDelays | src/flow/transition.js:35-38 | the pending set ends empty |
| Cancellation.TransitionManager.RafProgress | src/flow/transition.js:63-68 | a new animation, not tracked, appends its one cancel callback to the token, when there is one |
| Cancellation.TransitionManager.Tween | src/flow/transition.js:81-92 | `tweenPosition`: a new animation registers its cancel callback and its promise joins the tracked set |
| Cancellation.TransitionManager.Run | src/flow/transition.js:32 | a callback is recorded as run; a timer callback also removes its timer from the pending set |
| Cancellation.TransitionManager.CancelAll | src/flow/transition.js:44-51 | timers and tracked promises are emptied, the current token is marked cancelled, and its callbacks run in registration order; the token stays current and keeps its callbacks |
| Cancellation.TransitionManager.Begin | src/flow/transition.js:55 | the previous token ends cancelled after its callbacks ran, and a fresh uncancelled token with no callbacks becomes current; among all tokens ever issued, exactly the latest is uncancelled |
| Cancellation.TransitionManager.Track | src/flow/transition.js:52 | the promise joins the tracked set |
| Cancellation.TransitionManager.Settle | src/flow/transition.js:52 | the settled promise leaves the tracked set |
| SceneGraph.Node.constructor | src/graph/geometry.js:10-14 | a sprite with the given id, term, position and role flags |
| SceneGraph.Group.Add | src/graph/geometry.js:14 | `add` detaches the node from where it was and appends it |
| SceneGraph.Group.Remove | src/graph/state.js:22 | `remove` splices the node out of the children, if it is one |
| GraphState.SynonymIds | src/graph/state.js:36-40 | the ids of ring entries flagged `isSynonym`: each comes from such an entry, and every such entry's id is included; `GraphState.SynonymIdsInOrder` adds the ring order |
| GraphState.SynonymIdsInOrder | src/graph/state.js:36-40 | ring order is kept: the ids of two stretches of the ring are those of the first followed by those of the second |
| GraphState.WithIdsKeeps | src/graph/state.js:11-17 | the nodes `registerNode` accepts are exactly those with an id, in their order |
| GraphState.RegisterAllFiles | src/graph/state.js:14 | registering a list files exactly its ids, each under a node that carries it; ids not re-registered keep their node |
| GraphState.Registry.constructor | src/graph/state.js:3-5 | an empty map, an empty ring and no centred node |
| GraphState.Registry.NodeById | src/graph/state.js:7 | `nodeById` finds a node exactly for a registered id, and that node carries the id |
| GraphState.Registry.SetCentered | src/graph/state.js:9 | the centred slot holds the node |
| GraphState.Registry.RegisterNode | src/graph/state.js:11-18 | a node without an id changes nothing; otherwise it replaces the entry under its id and, if it is a synonym, joins the ring end unless already there; the registry invariant (no duplicates, `byId` keyed by own id) is kept |
| GraphState.Registry.RemoveNode | src/graph/state.js:20-29 | the node leaves the group and the ring (first occurrence), and its id leaves `byId` whichever node is filed there; the invariant is kept |
| GraphState.Registry.RemoveAll | src/graph/state.js:20-29 | `removeNode` over a list: the group and ring lose exactly those nodes, in order, and `byId` loses exactly their ids |
| GraphState.Registry.ClearNodeGroup | src/graph/state.js:31-34 | the group ends empty, every former child's id leaves `byId` and every former child leaves the ring; other ring entries and ids stay |
| GraphState.RemoveNodeIdempotent | src/graph/state.js:20-29 | removing a node twice leaves the ring, group and `byId` as removing it once |
| GraphBuild.BuildGraph | src/graph/geometry.js:6-30 | the old children are cleared; the group holds the new centre at the origin followed by one node per synonym, in list order; the ring gains the synonym nodes with ids and `byId` files all new nodes; a non-array list gives the centre alone |
| GraphBuild.PlaceCenter | src/graph/geometry.js:10-16 | the centre is at the origin, flagged as centre, appended, filed in `byId` but not in the ring, and recorded as the group's centre |
| GraphBuild.DrawSynonyms | src/graph/geometry.js:19-27 | one fresh node per entry at its position, appended in list order; the ring gains those with ids and `byId` registers them in order |
| GraphBuild.SynonymIdsOfDrawn | src/graph/geometry.js:19-27 | the drawn nodes report exactly the document's truthy synonym ids, in list order |
| GraphBuild.RebuiltRing | src/graph/geometry.js:19-27 | after a rebuild whose ring lay inside the group, the ring is exactly the new id-carrying synonym nodes, and `currentSynIdsFromScene` returns the document's truthy ids |
| GraphBuild.AddAndRegister | src/graph/geometry.js:25-26 | add then register: appended to the group, filed under its id, and joined to the ring when it is a synonym with an id |
| Vectors.Lerp | src/flow/transition.js:109 | fraction 0 gives the start and fraction 1 gives the end |
| Recenter.BakeGroupOffsetToChildren | src/flow/transition.js:96-102 | the offset ends at zero, every child moves by the old offset, and world positions are unchanged; with a zero offset nothing changes, so baking twice equals baking once |
| Recenter.Reached | src/flow/transition.js:70-109 | the eased fraction of the last frame: 1 for a completed animation, whose last frame has progress 1; within [0, 1] for a stop at a progress in [0, 1]; 0 when no frame ran |
| Recenter.RecenterAnimate | src/flow/transition.js:103-111 | the group's translation reached, completed or not, is baked into every child; a completed recenter puts the target at the group's former offset, which is the origin from a zero offset |
| Recenter.SpawnPoint | src/flow/transition.js:274-279 | a fresh sprite appears 15% of the way from the new centre to its target |
| Transition.PrunedKeeps | src/flow/transition.js:318-323 | the prune keeps exactly the entries without an id or with a fetched id, as a subsequence of the ring |
| Transition.PruneIdempotent | src/flow/transition.js:318-323 | pruning twice is pruning once |
| Transition.PrunedConsistent | src/flow/transition.js:318-323 | the pruned ring keeps the registry invariant and holds only fetched ids |
| Transition.Prune | src/flow/transition.js:319-323 | the backwards splicing loop computes the prune |
| Transition.PruneRing | src/flow/transition.js:318-323 | the ring becomes its prune, and every remaining entry was there and has a fetched id |
| Transition.TakeCenter | src/flow/transition.js:184-187 | the clicked node becomes the group's centre, flagged centre and not synonym, and leaves the ring, which loses nothing else |
| Transition.Recentre | src/flow/transition.js:184-214 | the clicked node becomes the centre, flagged centre and not synonym, and leaves the ring; the ring becomes exactly `Transition.Recentred` of the old one; a re-fetched old centre other than the clicked node is flagged synonym and not centre and is in the ring |
| Transition.AdoptOldCenter | src/flow/transition.js:211-214 | a re-fetched old centre is flagged synonym and not centre, and joins the ring end unless it is already there |
| Transition.RecentredHolds | src/flow/transition.js:184-214 | in a ring without duplicates, the recentred ring holds exactly the old entries other than the clicked node, plus an old centre, other than the clicked node, whose id is fetched again |
| Transition.SettleShared | src/flow/transition.js:223-228 | each shared id's registered node stands at its target, and other registered nodes do not move |
| Transition.SettleMoves | src/flow/transition.js:215-228 | the shared nodes and the re-adopted old centre stand at their targets, and no other registered node moves |
| Transition.NodesOf | src/flow/transition.js:230-232 | `nodeById` of the former ids: every node found is filed under one of the ids, every id with a node contributes it, and there are no more nodes than ids |
| Transition.NodesOfIds | src/flow/transition.js:230-232 | the ids of the nodes found are exactly the former ids that have a node |
| Transition.FormersDone | src/flow/transition.js:230-238 | undisturbed, every former collapse completes; after a cut, no more complete than the input allows, and only those whose delay fired |
| Transition.Incoming | src/flow/transition.js:240-243 | only entries with a truthy id among `current` get a sprite |
| Transition.IncomingCovers | src/flow/transition.js:240-243 | every entry with a truthy id among `current` gets a sprite |
| Transition.SpawnFresh | src/flow/transition.js:240-279 | one new sprite per incoming entry, appended in list order, flagged synonym, carrying the entry's id and term, at its target or spawn point; the ring and `byId` are untouched |
| Transition.AddSprite | src/flow/transition.js:267-272 | a new synonym sprite is appended to the group |
| Transition.Prepare | src/flow/transition.js:184-294 | the clicked node is centre and out of the ring, and does not move unless its id is shared; the ring becomes exactly `Transition.Recentred` of the old ring; the group's children become the old ones followed by exactly the fresh sprites, one per incoming entry, carrying its id and term and flagged synonym (`Transition.SpritesFor`); the collapsing nodes are looked up before any removal and exclude a re-adopted old centre; undisturbed, the moved nodes stand at their targets |
| Transition.Expand | src/flow/transition.js:184-323 | after the recenter: one `delay` per shared id with a node, per former id with a node when there is an old centre other than the clicked node, and per incoming entry; the token gains exactly the registrations `Transition.Expansion` lists for how far the run got; the clicked node does not move unless its id is shared; the call stalls exactly when a newer `begin` came before all delays fired; `byId`, the ring and the group's children become exactly `Transition.Expanded` of their old values: the recentred ring, the children followed by the fresh sprites, less the nodes whose collapse completed, and the ring pruned to the fetched ids unless the call stalled; undisturbed, the token stays current and live and the timers and tracked set end as they began |
| Transition.Animate | src/flow/transition.js:205-314 | the staggered tasks run on the manager: the registrations, the stall condition and the manager's end state are those of `Stagger.StaggerTasks` for the number of staggered tasks `Transition.Tasks` counts; `byId`, the ring and the children then become exactly `Transition.Left` of their values before, for the nodes `Transition.Removed` lists as having completed their collapse |
| Transition.Collapse | src/flow/transition.js:296-323 | `byId`, the ring and the children become exactly `Transition.Left` of their old values for the completed former collapses followed by the old centre when its collapse completed; those nodes' ids leave `byId` and the nodes leave the ring; a completed old-centre collapse takes it out of the ring and group; a re-adopted old centre stays in a finished ring |
| Transition.Finish | src/flow/transition.js:296-323 | `byId`, the ring and the children become exactly `Transition.Left` of their old values: the removed nodes' ids leave `byId`, the nodes leave the ring and the group, and unless the call stalled the ring is then pruned to the fetched ids |
| Transition.LeftKeeps | src/flow/transition.js:296-323 | what `Transition.Left` leaves, entry by entry: an id stays in `byId` exactly when no removed node carries it; a ring entry stays exactly when it was not removed and, unless the call stalled, the prune keeps it; a child stays exactly when it was not removed |
| Transition.RemovedUnfetched | src/flow/transition.js:174-312 | no node whose collapse completed carries a fetched id: the former ids are not fetched, and the old centre collapses only when its id is not fetched again |
| Transition.ExpandedWithin | src/flow/transition.js:184-323 | an expansion only shrinks the registry apart from the re-adopted old centre and the fresh sprites: every id left in `byId` was there, filed under the same node; every ring entry was in the ring or is the old centre; every child was a child or is a fresh sprite; unless the call stalled, every ring entry carries a fetched id |
| Transition.FinishedRing | src/flow/transition.js:184-323 | after a call that did not stall, the ring holds exactly the old ring's entries other than the clicked node whose id was fetched, plus the re-adopted old centre |
| Transition.UndisturbedById | src/flow/transition.js:230-312 | undisturbed, an id stays in `byId` exactly when it was there, is not a former id (when there is an old centre other than the clicked node), and is not the id of an old centre that was not fetched again |
| Transition.Conclude | src/flow/transition.js:318-323 | a stalled call leaves the ring alone; otherwise the ring becomes its prune, even after a late cancellation |
| Transition.Respond | src/flow/transition.js:164-181 | a non-array `linked_synonyms` throws before anything changes, leaving the manager and token alone; otherwise the recenter's stop callback comes first on the token, and the token's timer callbacks are exactly those of the timers made during the call; a cancelled recenter leaves membership unchanged and bakes the translation its last frame reached into every child, with the offset ending at zero; a completed one leaves the offset at zero and a clicked node that was a child stands at the group's old offset unless its id is shared (the expansion then moves it to its target), and leaves `byId`, the ring and the children exactly `Transition.Expanded` of their old values, with the fresh sprites those `Transition.SpritesFor` describes; undisturbed, the call finishes |
| Transition.Proceed | src/flow/transition.js:179-181 | the recenter registers its animation first and is baked whether completed or cancelled, the offset ending at zero; a cancelled one makes no timer, leaves membership unchanged, moves every child by the translation its last frame reached and ends the call; after a completed one a clicked node that was a child stands at the group's old offset unless its id is shared (the expansion then moves it to its target), and the expansion runs, which stalls exactly when a newer `begin` came before all its delays fired and leaves `byId`, the ring and the children exactly `Transition.Expanded` of their old values |
| Transition.Abandon | src/flow/transition.js:179-181 | a recenter cut short: its stop callback is the token's only new registration, the token ends cancelled and no timer is made; the group's translation at the last frame, `Lerp` from the old offset towards the offset minus the clicked node's position by the eased progress reached, is baked into every child, and the offset ends at zero |
| Transition.Advance | src/flow/transition.js:179-323 | a completed recenter followed by the expansion: the recenter's stop callback comes first; the offset ends at zero and a clicked node that was a child stands at the group's old offset unless its id is shared (the expansion then moves it to its target); the token's new timer callbacks are exactly those of the timers the expansion made, and `byId`, the ring and the children become exactly `Transition.Expanded` of their old values |
| Transition.Arrive | src/flow/transition.js:179-323 | the completed recenter is baked: the group's offset ends at zero and, when the clicked node is a child, it stands at the group's old offset unless its id is shared; then the expansion runs, with `Transition.Expand`'s registrations on the token, and `byId`, the ring and the children exactly `Transition.Expanded` of their old values |
| Transition.TransitionToNode | src/flow/transition.js:148-323 | a click without an id changes nothing; otherwise a new token is issued; failed, cancelled or term-less fetches and a malformed synonym list leave membership unchanged and the token without callbacks; a cancelled recenter bakes the translation its last frame reached into every child; otherwise the recenter's stop callback is the token's first, and its timer callbacks are exactly those of the timers the call made; the call stalls exactly when a newer `begin` came before all delays fired; a call that got past the recenter leaves the offset at zero and a clicked node that was a child stands at the group's old offset unless its id is shared (the expansion then moves it to its target), and leaves `byId`, the ring and the children exactly `Transition.Expanded` of their old values, for the split of the ring's synonym ids against the fetched ids; after a finished call the clicked node is centre and out of the ring, which holds only fetched ids; undisturbed, it finishes under a current, uncancelled token with no timer pending and nothing tracked |
| Transition.Receive | src/flow/transition.js:153-181 | under the call's fresh token: a fetch that threw, or one overtaken by a newer `begin` (which cancels the token), and a document without a term end the call with membership unchanged and no callbacks; otherwise `Transition.Respond`'s effects, stated on the token, including the bake of the recenter |
| Stagger.Started | src/flow/transition.js:224-286 | the number of delays that fired out of `n`: all of them undisturbed; after a cut before the last, exactly as many as fired before the cut; all of them exactly when the cut came after the last |
| Stagger.RegisteredTimers | src/flow/transition.js:224-286 | however far the run got, the registrations hold a clear callback for exactly the timers the staggered tasks were given |
| Stagger.StartTasks | src/flow/transition.js:209-286 | the synchronous start: the re-adopted old centre's tween, then one pending timer per task, in order, each registering its clear callback |
| Stagger.FireTasks | src/flow/transition.js:224-286 | the first `k` timers fire in order and each starts a tracked tween that registers its stop callback |
| Stagger.SettleAll | src/flow/transition.js:296-297 | the tracked tweens of the span all leave the tracked set |
| Stagger.CollapseCenter | src/flow/transition.js:304-309 | the old centre's collapse registers one stop callback and its tracked promise settles |
| Stagger.Open | src/flow/transition.js:209-286 | after the start and the first `k` firings, exactly the unfired timers are pending and the started tweens tracked, with the registrations in order |
| Stagger.Complete | src/flow/transition.js:303-309 | undisturbed, every started tween settles and the old centre's collapse registers once |
| Stagger.Cut | src/flow/transition.js:44-55 | a newer `begin` after `k` firings: the token ends cancelled and no longer current, timers and tracked set are emptied, its callbacks so far are run, and the call stalls exactly when one of its timers was pending |
| Stagger.StaggerTasks | src/flow/transition.js:205-309 | the manager through an expansion: the token's registrations in order, the callbacks a cut runs, the stall condition, and, undisturbed, the manager's timers, tracked set and current token as they began |

## Left out

- Rendering is not part of this model. That covers sprite creation (canvas, texture, material), opacity, scale, the distance-based fade, the disposal of materials in `removeNode`, and the anchor sprite from `makeAnchorAt`.
- The network fetch (`loadTermById`) is not part of this model. Its outcome is an input, and so is `getId`, taken as the record's `id` field.
- Frame and timer interleavings are not part of this model. The `Interruption` input stands for them. It is assumed consistent with the schedule, for example which collapses can have completed.
- Intermediate tween positions are not part of this model. After a late cancellation, the model leaves a moving node at its start position and a fresh sprite at its spawn point.
- Collapsing nodes' positions, opacity and scale, and the live tracking of the moving anchor, are not part of this model. Only the removal at the end of a collapse is.
- `console.error` logging is not part of this model.
- src/align/kabsch.js, src/align/orient.js, src/scene/control.js and the earlier monoliths pseudo-main.js and src/main.js are not part of this model.
- `getCentered` is a plain read of the centred slot, so it has no member of its own.
- Transition.TransitionToNode: only `mode = 'parallel'` is modelled, the default and the value of the application's own call. In serial mode (src/flow/transition.js:196-200, 296-305) the old centre's collapse starts once the shared and former tasks are done, before the fresh delays are awaited. A serial run cut short while a fresh delay is pending can therefore already have registered that collapse and removed the old centre, and still stall. For example: old centre `bank`, ring `[money]`, click `money`, `B = [cash]`, a newer `begin` at 0.6·D. The parallel model has no such run. `Timing.MakeSchedule` does model the serial timings.
- Transition.Arrive: after a completed recenter the chain up to `Transition.TransitionToNode` states the zero offset and the clicked node's position. How far every other child moved is stated by `Recenter.RecenterAnimate`. It is not carried up, because the expansion then moves the shared nodes and the re-adopted old centre again.
- Stagger.StaggerTasks: follows the parallel (default) order, in which the old centre's collapse starts after every staggered task. The serial order, in which the collapse can start, register and complete while fresh delays are still pending, is not modelled (see `Transition.TransitionToNode`).
- Stagger.Cut: an old-centre collapse that had started but not completed when a newer `begin` cut in is registered after that `begin`. Its stop callback is therefore not among the callbacks the `begin` runs, while in the source it is; the token's list is the same either way.
- Timing.ExpandBase: a non-number `ANIM_EXPAND_MS` passes through `??` as in the source, but `Timing.MakeSchedule` takes the base duration as a real, so JavaScript's coercion of such a value in `0.5*D` is not modelled.
- Timing.TranslateDuration: `NaN` is falsy in JavaScript and would fall back to 500; the reals have no `NaN`.
- GraphState.Registry.RemoveNode: takes a non-null node. `removeNode(null)` in the source does nothing, and no caller in the core passes null.
- Recenter.SpawnPoint: the source tests `dir.lengthSq() === 0`; the model tests `dir == Zero`, which over the reals is the same test.
- Recenter.BakeGroupOffsetToChildren: requires no duplicate children, which a three.js group guarantees because `add` detaches first.

### Behaviour of the code worth knowing

- **Cancel callbacks.** `cancelAll` never empties a token's `cancelCallbacks` and never resets `currentToken` (src/flow/transition.js:44-51). A second `cancelAll` therefore runs the same callbacks again.
- **Fresh sprites.** They are added to the group but never registered (src/flow/transition.js:269-272). After a transition, the ring and `byId` therefore do not contain them, and the ring is not exactly the fetched ids.
- **Pending delays.** A `delay` whose timer is cleared by a cancellation never resolves its promise (src/flow/transition.js:28-33). A transition cancelled while such a delay is pending therefore never reaches its prune (`Stalled`).
- **Late cancellation.** A cancellation during the expansion does not stop the final prune once the awaited promises settle (src/flow/transition.js:296-323).
- **Cancelled recenter.** Cancelling `rafProgress` resolves its promise, so the bake still runs after a cancelled recenter, at the translation the last frame reached (src/flow/transition.js:67, 110).
- **Malformed documents.** A document whose `linked_synonyms` is missing or falsy proceeds with an empty list. A truthy value that is not an array throws at `.map` (src/flow/transition.js:170), outside the `try`, after the fetch has succeeded.
