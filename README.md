# Room and lighting culling, modelled in Dafny

The repository is a Unity package with two engines that run once per tick.

**Room culling.** `RoomCullingService` keeps a registry of rooms. A room is one child of a rooms parent, with its mesh renderers and lights. Each room has a centre and a render state, Off or On.
- Each tick a round-robin `TimeSliceStepper` picks a slice of the rooms, or every room while a full sweep is pending.
- Each picked room goes through a small state machine: Off without renderers or outside a vertical band around the user; otherwise it switches on within the enable distance and off at or beyond the disable distance, with hysteresis between the two.
- Then every room is passed over. An On room's lights are dimmed by a piecewise falloff of their original intensity (`LightIntensityUtils`), which `LightCache` remembers on first sight. An Off room's lights are zeroed.
- Finally `ShadowSelectionService` hands a bounded shadow budget to the nearest shadow-casting lights of the rooms that are On.
- `RoomCullingConfig.ValidateValues` clamps the settings. `RoomRegistry` builds the rooms and their centres. `RoomRendererUtils.SetEnabled` switches a room's renderers.

**Channel (render-layer) assignment.** `DynamicLightRenderLayerAssignmentService` gives each room one bit of the rendering-layer mask, chosen from the palette `firstBit .. firstBit + colorCount - 1`. Rooms whose boxes are closer than a minimum separation must not share a bit.
- **Static mode:** a greedy colouring in order of decreasing conflict degree.
- **Dynamic mode:**
  - rooms are split into inside, border and outside zones around an observer;
  - three passes reassign masks;
  - a move gate skips recomputation while the observer stays put;
  - a per-room cooldown spaces writes.
- `DynamicLightRenderLayerController` clamps the colour count, drives `Assign` from `Update` at a tick interval, and reads masks back for display.

## How the model is built

- **Host engine state.** Lights, renderers and transforms are ids into the host tables `LightTable`, `RendererTable` and `TransformTable` (module `Scene`). Each table is a class with `seq` fields: liveness, bounds, enabled flags, layer masks, intensity, shadows, resolution and position. The services change these fields through `modifies` clauses.
- **Classes.** `RoomRendererRecord`, `RoomRegistry`, `LightCache`, `TimeSliceStepper`, `ShadowSelectionService`, `RoomCullingConfig`, `RoomCullingService`, `AssignmentService` and `LayerController` are classes with the source's fields.
- **Loops.** Each loop of the source that changes state (the greedy, inside, border and outside passes, the delta writes, the culling tick and its after-loop pass, the collection loops) is a `while` loop with invariants. Each such method is proved against a specification function or predicate over the old and new state.
- **Pure scans.** A loop of the source that only computes a value is a recursive function or a comprehension over values: the used-inside set (`UsedBy`), the banned sets (`Banned`, `BannedLocal`), `IsAllowedMask` and `ChooseMask` (`AllowedFrom`, `FirstFree`), and the scoring loops (`ProximityCount`, `BestFrom`).
- **Proved properties.** What the source promises is proved about those functions as lemmas, for example:
  - hysteresis;
  - the time slices;
  - the shadow budget;
  - conflict-graph symmetry;
  - safety of the static colouring;
  - the zone guarantees, and the masks each dynamic pass picks (`PlanAfter`, a fold per pass);
  - the cooldown discipline.
- **Distances.** Distances are exact reals, and every threshold test compares squared values. `sqrt(sq) <= r` becomes `r >= 0 && sq <= r * r`.
  - The box-to-box and point-to-box distances are computed per axis, as in `AABBtoAABBDistance` and `DistancePointToAABB`.
  - The symmetry of the box-to-box distance is proved from that definition rather than assumed.
- **Masks.** Masks are the subrange `uint32`. The C# shift `1u << b` is modelled with its shift count taken modulo 32.

The source's own files are followed where they disagree with one another. The input struct in `Runtime/Implementations/DataContainers/LightRenderLayerAssignmentInput.cs` declares no `ProximityFactor`. Yet the service reads `input.ProximityFactor` (DynamicLightRenderLayerAssignmentService.cs:64), and the controller passes a proximity factor to the input's constructor (DynamicLightRenderLayerController.cs:56, :73). The model therefore ASSUMES the input has an `int proximityFactor` field, stored verbatim by the constructor, which the service clamps to at least 0 (DynamicLightRenderLayerAssignmentService.cs:275).

## Model

| member | source | states |
|---|---|---|
| Masks.ShiftOne | Runtime/Implementations/Services/DynamicLightRenderLayerAssignmentService.cs:319 | C#'s `1u << bit` takes the shift count modulo 32: the result is never 0, and for a count below 32 it is the single bit `2^bit` |
| Masks.NewPalette | Runtime/Implementations/Services/DynamicLightRenderLayerAssignmentService.cs:40-48 | the palette is valid (its bits lie in 1..31); the first bit is `firstBit` clamped to 1..31; the colour count is `colorCount` clamped to 1 .. min(32 - first bit, max(1, `configuredLightLayers`)), so a count already in range is kept |
| Masks.MaskOfInjective | Runtime/Implementations/Services/DynamicLightRenderLayerAssignmentService.cs:616-624 | different channels of a valid palette have different masks: no shift wraps around |
| Masks.AllowedMasks | Runtime/Implementations/Services/DynamicLightRenderLayerAssignmentService.cs:616-624 | `GetAllowedMasks` lists `colorCount` masks, element `c` being channel `c`'s mask |
| Masks.AllowedFrom | Runtime/Implementations/Services/DynamicLightRenderLayerAssignmentService.cs:634-642 | the scan from channel `c` is true exactly when some channel `c <= k < colorCount` has the mask |
| Masks.IsAllowedMask | Runtime/Implementations/Services/DynamicLightRenderLayerAssignmentService.cs:626-643 | true exactly for a mask that is one of the palette's channels; 0 is never allowed |
| Masks.AllowedMaskIndex | Runtime/Implementations/Services/DynamicLightRenderLayerAssignmentService.cs:626-643 | an allowed mask is the mask of some channel below `colorCount` |
| Masks.AllowedMaskIsPaletteBit | Runtime/Implementations/Services/DynamicLightRenderLayerAssignmentService.cs:40-48 | under a valid palette an allowed mask is the single bit `2^b` with `firstBit <= b < firstBit + colorCount` ... |
| Masks.PaletteBitIsAllowed | Runtime/Implementations/Services/DynamicLightRenderLayerAssignmentService.cs:40-48 | ... and each such bit fits in a `uint` and is allowed |
| Masks.FirstFree | Runtime/Implementations/Services/DynamicLightRenderLayerAssignmentService.cs:316-326 | the first channel from `c` whose mask is not banned, the lowest such; 0 exactly when every channel from `c` is banned |
| Masks.ChooseMask | Runtime/Implementations/Services/DynamicLightRenderLayerAssignmentService.cs:309-327 | a non-zero, allowed, unbanned `prefer` is kept; otherwise the result is 0 exactly when every channel is banned, else the lowest unbanned channel's mask; always 0 or an allowed unbanned mask |
| Masks.ChooseMaskNothingBanned | Runtime/Implementations/Services/DynamicLightRenderLayerAssignmentService.cs:179 | with nothing banned the outside pass's fallback `ChooseMask` of an empty set gives the palette's first mask, which is not 0 |
| Tally.KeptPass | Runtime/Implementations/Services/DynamicLightRenderLayerAssignmentService.cs:578-602 | every mask the counting loop keeps passes its filter (`IsAllowedMask` in the service, any mask in the controller) (the same code in the controller is modelled by this member too) |
| Tally.TallyAppend | Runtime/Implementations/Services/DynamicLightRenderLayerAssignmentService.cs:594-601 | one more occurrence of a mask keeps `counts` a tally: the count of that mask goes up by one, or starts at 1 |
| Tally.CountStep | Runtime/Implementations/Services/DynamicLightRenderLayerAssignmentService.cs:580-602 | one iteration of the counting loop keeps `counts` the tally of the renderers seen so far, for a renderer counted or skipped (the same code in the controller is modelled by this member too) |
| Tally.CountMasks | Runtime/Implementations/Services/DynamicLightRenderLayerAssignmentService.cs:578-602 | the dictionary the loop builds maps each kept mask of a live renderer to its number of occurrences, and holds nothing else (the same code in the controller is modelled by this member too) |
| Tally.MostFrequent | Runtime/Implementations/Services/DynamicLightRenderLayerAssignmentService.cs:604-607 | `OrderByDescending(kv => kv.Value).First().Key` returns a key of the dictionary whose count no other key exceeds (the same code in the controller is modelled by this member too) |
| Tally.TallyEmpty | Runtime/Implementations/Services/DynamicLightRenderLayerAssignmentService.cs:604-611 | the tally is empty exactly when no mask was kept, which is when the source falls back to 0 (the same code in the controller is modelled by this member too) |
| Tally.TallyMostFrequent | Runtime/Implementations/Services/DynamicLightRenderLayerAssignmentService.cs:604-607 | a key of largest count is a mask that occurs among the kept masks at least as often as any other mask (the same code in the controller is modelled by this member too) |
| Coloring.CloseSymmetric | Runtime/Implementations/Services/DynamicLightRenderLayerAssignmentService.cs:189-195 | whether two rooms are closer than the separation does not depend on their order |
| Coloring.ConflictLists | Runtime/Implementations/Services/DynamicLightRenderLayerAssignmentService.cs:272-295 | one conflict list per room; its members are stated by `ConflictListsMembers` |
| Coloring.NeighboursBelowMembers | Runtime/Implementations/Services/DynamicLightRenderLayerAssignmentService.cs:284-294 | after the outer loop reached `k`, room `b` is in `a`'s list exactly when `b < k`, `b != a` and the boxes are closer than the separation |
| Coloring.NeighboursBelowIncreasing | Runtime/Implementations/Services/DynamicLightRenderLayerAssignmentService.cs:284-294 | each conflict list is strictly increasing and holds room indices, so it names every neighbour once |
| Coloring.ConflictListsMembers | Runtime/Implementations/Services/DynamicLightRenderLayerAssignmentService.cs:272-295 | `b` is in the list of `a` exactly when they are different rooms closer than the separation, and exactly when `a` is in the list of `b` |
| Coloring.NoConflictsWithoutSeparation | Runtime/Implementations/Services/DynamicLightRenderLayerAssignmentService.cs:288 | with a separation of 0 or less no room has a conflict |
| Coloring.BuiltGraphIsSymmetric | Runtime/Implementations/Services/DynamicLightRenderLayerAssignmentService.cs:272-295 | the graph built from the conflict lists is well formed, symmetric and irreflexive |
| Coloring.Range | Runtime/Implementations/Services/DynamicLightRenderLayerAssignmentService.cs:299-303 | the room indices `0 .. n-1` in increasing order |
| Coloring.Banned | Runtime/Implementations/Services/DynamicLightRenderLayerAssignmentService.cs:461-497 | `GetBannedMasks` holds only allowed masks; it holds every allowed mask of a conflicting room and, when the clamped separation is positive, of every other room within the proximity threshold; every banned mask is held by such a room |
| Coloring.BannedLocal | Runtime/Implementations/Services/DynamicLightRenderLayerAssignmentService.cs:499-536 | `GetBannedMasksLocal` holds only allowed masks; it holds the allowed masks of the conflicting rooms in the local list and, when the clamped separation is positive, those of every room of the local list (the room itself included) and of every room within the proximity threshold; nothing else |
| Coloring.ProximityCount | Runtime/Implementations/Services/DynamicLightRenderLayerAssignmentService.cs:349-366 | the count of the inner loop over the first `n` rooms is at most `n`, and below `n` once room `idx`, which is skipped, is among them |
| Coloring.ProximityCountIsUsers | Runtime/Implementations/Services/DynamicLightRenderLayerAssignmentService.cs:349-366 | the count over the first `n` rooms is the number of those rooms, other than `idx`, that hold the candidate and are within proximity of `idx` |
| Coloring.Score | Runtime/Implementations/Services/DynamicLightRenderLayerAssignmentService.cs:348-366 | the proximity score is below the number of rooms, since the room itself is not counted |
| Coloring.ScoreCountsUsers | Runtime/Implementations/Services/DynamicLightRenderLayerAssignmentService.cs:348-366 | the score is the number of other rooms within proximity of `idx` that already hold the candidate |
| Coloring.PreferUnused | Runtime/Implementations/Services/DynamicLightRenderLayerAssignmentService.cs:126-135 | the first channel neither banned nor used by an inside room, or 0 exactly when every channel is banned or used |
| Coloring.BestFrom | Runtime/Implementations/Services/DynamicLightRenderLayerAssignmentService.cs:339-378 | the scan of `ChooseBestMaskForRoom` from channel `c` ends with the best mask so far or with the mask of a later channel that is not banned |
| Coloring.ScanKeeps | Runtime/Implementations/Services/DynamicLightRenderLayerAssignmentService.cs:343-377 | a banned channel, or one scoring no better than the best so far, leaves the scan's meaning in place for the next channel |
| Coloring.ScanTakes | Runtime/Implementations/Services/DynamicLightRenderLayerAssignmentService.cs:343-377 | an unbanned channel scoring strictly better takes the best's place, and a score of 0 makes it best among all channels |
| Coloring.BestFromIsBest | Runtime/Implementations/Services/DynamicLightRenderLayerAssignmentService.cs:336-380 | the scan ends with an unbanned channel of least score, the lowest channel among equals; with 0 best-so-far, 0 exactly when every channel is banned |
| Coloring.ChooseBest | Runtime/Implementations/Services/DynamicLightRenderLayerAssignmentService.cs:329-381 | a keepable `prefer` is kept; otherwise the result is 0 exactly when every channel is banned, and else the mask of an unbanned channel with least proximity score, the lowest channel among equals |
| Coloring.GreedyStep | Runtime/Implementations/Services/DynamicLightRenderLayerAssignmentService.cs:545-553 | one iteration of `GlobalAssign`'s loop keeps one mask per room; its safety is `GreedyStepSafe` |
| Coloring.Greedy | Runtime/Implementations/Services/DynamicLightRenderLayerAssignmentService.cs:540-554 | the greedy colouring keeps one mask per room; its safety is `GreedySafe` |
| Coloring.GreedyStepSafe | Runtime/Implementations/Services/DynamicLightRenderLayerAssignmentService.cs:545-553 | one greedy step keeps every mask 0 or a palette mask and keeps conflicting rooms with masks on different masks |
| Coloring.GreedySafe | Runtime/Implementations/Services/DynamicLightRenderLayerAssignmentService.cs:538-561 | static mode is safe whatever the visit order: every mask is 0 or a palette mask, and two conflicting rooms that both hold a mask hold different ones |
| Coloring.GreedyStepUnresolved | Runtime/Implementations/Services/DynamicLightRenderLayerAssignmentService.cs:547-551 | a room the greedy step left at 0 is exactly one that found every channel banned |
| Sorting.SortBy | Runtime/Implementations/Services/DynamicLightRenderLayerAssignmentService.cs:305 | the list's sorts: the result is a permutation of the input in non-decreasing order of the key (the `List.Sort`s at :305 and in the shadow selection are unstable, so that is all they promise; this member models the shadow selection's sort too) |
| Sorting.InsertKeepsTies | Runtime/Implementations/Services/DynamicLightRenderLayerAssignmentService.cs:105 | an element below every element of a list whose ties are in increasing order goes before every element whose key ties with its own, so the ties stay in increasing order |
| Sorting.SortByKeepsTies | Runtime/Implementations/Services/DynamicLightRenderLayerAssignmentService.cs:105 | sorting an increasing list keeps the elements whose keys tie in increasing order: the sort is stable, as LINQ's `OrderByDescending` is |
| Sorting.PermutationOfDistinct | Runtime/Implementations/Services/DynamicLightRenderLayerAssignmentService.cs:105 | a permutation of a list without repetitions has none either |
| Passes.BuildConflictLists | Runtime/Implementations/Services/DynamicLightRenderLayerAssignmentService.cs:277-294 | the nested loop over pairs `a < b` builds exactly the conflict lists `ConflictLists` |
| Passes.PairStep | Runtime/Implementations/Services/DynamicLightRenderLayerAssignmentService.cs:286-293 | one pass of the inner loop appends a close pair to both lists and keeps the loop's meaning |
| Passes.SortedByDegree | Runtime/Implementations/Services/DynamicLightRenderLayerAssignmentService.cs:297-307 | a permutation of rooms sorted by `-Count` is in non-increasing order of degree and holds only rooms of the input |
| Passes.OrderByDegree | Runtime/Implementations/Services/DynamicLightRenderLayerAssignmentService.cs:297-307 | `BuildOrderByDegree` lists every room exactly once, by non-increasing number of conflicts |
| Passes.InsideOrder | Runtime/Implementations/Services/DynamicLightRenderLayerAssignmentService.cs:105 | the inside rooms, each once, by non-increasing number of conflicts |
| Passes.InsideOrderKeepsTies | Runtime/Implementations/Services/DynamicLightRenderLayerAssignmentService.cs:105 | inside rooms of equal degree keep the increasing index order of the zone list (`OrderByDescending` is stable) |
| Passes.GreedyColouring | Runtime/Implementations/Services/DynamicLightRenderLayerAssignmentService.cs:540-554 | the first loop of `GlobalAssign` computes the greedy colouring `Greedy` in the given order |
| Passes.InZoneMembers | Runtime/Implementations/Services/DynamicLightRenderLayerAssignmentService.cs:82-101 | a room is in a zone list exactly when it is a room in that zone; the list is in increasing order and names no room twice |
| Passes.Partition | Runtime/Implementations/Services/DynamicLightRenderLayerAssignmentService.cs:82-101 | the partition loop builds the inside, border and outside lists of the rooms by zone |
| Passes.ZonesPartitionRooms | Runtime/Implementations/Services/DynamicLightRenderLayerAssignmentService.cs:82-101 | every room lands in exactly one of the three zone lists |
| Passes.InsideIsWithinRadiusOut | Runtime/Implementations/Services/DynamicLightRenderLayerAssignmentService.cs:88-99 | with `radiusIn <= radiusOut` a room that is not outside is within `radiusOut` of the player |
| Passes.UsedBy | Runtime/Implementations/Services/DynamicLightRenderLayerAssignmentService.cs:107-118 | the initial `usedInInside` holds only palette masks |
| Passes.InsideChoice | Runtime/Implementations/Services/DynamicLightRenderLayerAssignmentService.cs:120-146 | the mask an inside room takes is 0 or allowed, is held by no conflicting inside room, and differs from its own one when the clamped separation is positive |
| Passes.InsideChoiceFree | Runtime/Implementations/Services/DynamicLightRenderLayerAssignmentService.cs:123-142 | an inside room takes no mask (the pass `continue`s) exactly when every channel is banned for it locally |
| Passes.InsideSteps | Runtime/Implementations/Services/DynamicLightRenderLayerAssignmentService.cs:120-146 | the inside pass as a fold over the order: each room takes its `InsideChoice` under the masks and used set left by the rooms before it; lengths and 0-or-allowed masks are kept |
| Passes.InsideTurn | Runtime/Implementations/Services/DynamicLightRenderLayerAssignmentService.cs:122-145 | one turn of the inside loop takes the state one room further along `InsideSteps` and keeps the loop invariant `InsideProgress` |
| Passes.InsideAdvance | Runtime/Implementations/Services/DynamicLightRenderLayerAssignmentService.cs:139-145 | a room that takes a mask, or one that keeps its own, keeps the invariant of the inside loop |
| Passes.InsideSafeStep | Runtime/Implementations/Services/DynamicLightRenderLayerAssignmentService.cs:144-145 | resolving one more inside room with a mask no conflicting inside room holds keeps the inside rooms apart |
| Passes.InsidePass | Runtime/Implementations/Services/DynamicLightRenderLayerAssignmentService.cs:120-146 | the masks are the fold `InsideSteps` of `InsideChoice` over the order from the initial `usedInInside`; every mask is 0 or allowed, a room that took a mask holds a non-zero mask that no conflicting inside room holds, every other room keeps its mask, and with a positive separation a resolved room changed its mask |
| Passes.BorderPass | Runtime/Implementations/Services/DynamicLightRenderLayerAssignmentService.cs:148-171 | the masks are the fold `BorderSteps` of `BorderChoice` over the border list; without a positive separation each border room ends with its `BorderChoice` under the masks the pass started from; every mask is 0 or allowed, rooms outside the border list are unchanged, a border room whose mask collides with no conflicting inside room keeps it, and a border room whose mask changed now collides with none |
| Passes.BorderChoice | Runtime/Implementations/Services/DynamicLightRenderLayerAssignmentService.cs:150-170 | a border room keeps a non-zero mask that collides with no conflicting inside room; otherwise it takes a mask not banned locally when there is one, or keeps its own; a changed mask is non-zero and held by no conflicting inside room |
| Passes.BorderSteps | Runtime/Implementations/Services/DynamicLightRenderLayerAssignmentService.cs:148-171 | the border pass as a fold: each border room in turn takes its `BorderChoice`; lengths and 0-or-allowed masks are kept |
| Passes.BorderTurn | Runtime/Implementations/Services/DynamicLightRenderLayerAssignmentService.cs:150-170 | the `collides` loop with its `break` finds exactly `Collides`, and the room ends with its `BorderChoice` |
| Passes.BorderAdvance | Runtime/Implementations/Services/DynamicLightRenderLayerAssignmentService.cs:148-171 | one border turn keeps the invariant of the border loop |
| Passes.BorderChoiceLocal | Runtime/Implementations/Services/DynamicLightRenderLayerAssignmentService.cs:168-169 | without a positive separation a border room's choice depends only on its own mask and those of its conflicting inside rooms |
| Passes.BorderAdvanceFromSnapshot | Runtime/Implementations/Services/DynamicLightRenderLayerAssignmentService.cs:148-171 | without a positive separation each border room handled so far holds its `BorderChoice` under the masks the pass started from |
| Passes.OutsideChoice | Runtime/Implementations/Services/DynamicLightRenderLayerAssignmentService.cs:173-181 | an outside room without a mask takes an allowed non-zero mask: one not banned, or the palette's first mask when every channel is banned |
| Passes.OutsidePass | Runtime/Implementations/Services/DynamicLightRenderLayerAssignmentService.cs:173-181 | the masks are the fold `OutsideSteps` of `OutsideChoice`; every outside room holds a mask, one that had a mask keeps it, and every other room is unchanged |
| Passes.OutsideSteps | Runtime/Implementations/Services/DynamicLightRenderLayerAssignmentService.cs:173-181 | the outside pass as a fold: each outside room without a mask in turn takes its `OutsideChoice`; lengths and 0-or-allowed masks are kept |
| Passes.OutsideTurn | Runtime/Implementations/Services/DynamicLightRenderLayerAssignmentService.cs:175-180 | one turn: a room without a mask takes its `OutsideChoice`, any other keeps its own |
| Passes.OutsideAdvance | Runtime/Implementations/Services/DynamicLightRenderLayerAssignmentService.cs:173-181 | one outside turn keeps, for every room, what the outside loop has established so far |
| Passes.PlanAfter | Runtime/Implementations/Services/DynamicLightRenderLayerAssignmentService.cs:103-181 | the planned masks once the passes up to a zone have run; each keeps lengths and 0-or-allowed masks |
| Passes.ZonePasses | Runtime/Implementations/Services/DynamicLightRenderLayerAssignmentService.cs:103-181 | the three passes over the zone lists plan exactly `PlanAfter(.., Outside)`, the inside, border and outside folds in turn, and give the zone guarantees `ZoneOutcome` from the snapshot |
| Passes.ZoneOutcomeOfPasses | Runtime/Implementations/Services/DynamicLightRenderLayerAssignmentService.cs:120-181 | the contracts of the three passes, read zone by zone, give the zone guarantees `ZoneOutcome` (which masks the rooms take is `PlanAfter`, stated by `ZonePasses`) |
| AssignmentInput.NewInput | Runtime/Implementations/DataContainers/LightRenderLayerAssignmentInput.cs:29-49 | every argument is stored as given except that the outer radius is raised to the inner one, so `radiusOut >= radiusIn` |
| AssignmentInput.NowOf | Runtime/Implementations/Services/DynamicLightRenderLayerAssignmentService.cs:80 | `Assign`'s time is `input.now` when that is not negative, and the host clock otherwise |
| AssignmentInput.DefaultsAreStatic | Runtime/Implementations/DataContainers/LightRenderLayerAssignmentInput.cs:27-38 | an input built without an observer position is static and reads the host clock |
| AssignmentInput.DynamicModeOfNewInput | Runtime/Implementations/DataContainers/LightRenderLayerAssignmentInput.cs:27 | an input is dynamic exactly when it has a position and a positive inner radius |
| ChannelService.RoomsOf | Runtime/Implementations/Services/DynamicLightRenderLayerAssignmentService.cs:394-411 | the room dictionary after `CollectRooms`' loop has exactly the children's transforms as keys |
| ChannelService.RoomsOfDistinct | Runtime/Implementations/Services/DynamicLightRenderLayerAssignmentService.cs:401-409 | with distinct child transforms every room holds exactly the renderers and lights its own child's search found |
| ChannelService.Transforms | Runtime/Implementations/Services/DynamicLightRenderLayerAssignmentService.cs:409 | `_roomKeys` lists the child transforms in child order |
| ChannelService.CollectedRooms | Runtime/Implementations/Services/DynamicLightRenderLayerAssignmentService.cs:394-411 | the rooms of a tree have distinct keys, each with its own child's lists, and no renderer is in two rooms |
| ChannelService.RoomBoxFallbacks | Runtime/Implementations/Services/DynamicLightRenderLayerAssignmentService.cs:419-457 | a room with a live renderer gets the least box covering all its live renderers; without one, the box collider's bounds when there is one; else a box centred on the room's position |
| ChannelService.RoomBounds | Runtime/Implementations/Services/DynamicLightRenderLayerAssignmentService.cs:419-457 | the per-room loop of `ComputeBounds`, with its two fallbacks, computes `RoomBox` |
| ChannelService.WritesAreSpaced | Runtime/Implementations/Services/DynamicLightRenderLayerAssignmentService.cs:217-224 | two writes to one room are at least the first one's cooldown apart, and so at least 0.01 s |
| ChannelService.CooldownEnd | Runtime/Implementations/Services/DynamicLightRenderLayerAssignmentService.cs:224 | a write at `now` ends its cooldown no earlier than `now + 0.01` and `now + coolDownSeconds` |
| ChannelService.SnapshotRoom | Runtime/Implementations/Services/DynamicLightRenderLayerAssignmentService.cs:567-611 | a room's snapshot is its recorded mask when that is allowed, otherwise a most common allowed mask among its live renderers, or 0 when there is none; always 0 or allowed |
| ChannelService.MaskAfterDisjoint | Runtime/Implementations/Services/DynamicLightRenderLayerAssignmentService.cs:228-243 | when no renderer is in two rooms, writing the rooms in turn leaves each live renderer of a room with that room's mask and every other renderer as it was |
| ChannelService.RecordedDistinct | Runtime/Implementations/Services/DynamicLightRenderLayerAssignmentService.cs:559 | with distinct keys, recording the rooms in turn leaves every room's own mask and every other key's entry as it was |
| ChannelService.DueFlags | Runtime/Implementations/Services/DynamicLightRenderLayerAssignmentService.cs:212-220 | one flag per room, set exactly when the room's delta is due (a non-zero new mask, and either no current mask or a different one whose cooldown is over) |
| ChannelService.AppliedOutcome | Runtime/Implementations/Services/DynamicLightRenderLayerAssignmentService.cs:205-226 | the applied deltas leave each room whose delta was due with its new mask and a fresh cooldown, and every other room and every key that is not a room as it was; no room loses its mask |
| ChannelService.KeyKeepsMask | Runtime/Implementations/Services/DynamicLightRenderLayerAssignmentService.cs:212 | a room that held a non-zero mask still holds one after the deltas: a due delta is never 0 |
| ChannelService.DisciplineStep | Runtime/Implementations/Services/DynamicLightRenderLayerAssignmentService.cs:217-224 | one more write, made once the room's cooldown is over and with a non-zero mask, keeps the history of writes spaced by their cooldowns |
| ChannelService.AssignmentService.constructor | Runtime/Implementations/Services/DynamicLightRenderLayerAssignmentService.cs:15-48 | the palette is `NewPalette` of the arguments; the service starts with no rooms, no masks, no cooldowns, no last position (the stored one is the origin), separation 0 and proximity factor 1.5 |
| ChannelService.AssignmentService.CollectRooms | Runtime/Implementations/Services/DynamicLightRenderLayerAssignmentService.cs:394-411 | the previous rooms are forgotten; the keys are the child transforms in child order and each room holds what its child's search found; the assignment state is untouched |
| ChannelService.AssignmentService.ComputeBounds | Runtime/Implementations/Services/DynamicLightRenderLayerAssignmentService.cs:413-459 | room `i`'s box is `RoomBox` of its renderers, its collider and its position; nothing else changes |
| ChannelService.AssignmentService.BuildConflictGraph | Runtime/Implementations/Services/DynamicLightRenderLayerAssignmentService.cs:272-295 | the clamped separation and proximity factor are stored; the conflict lists are those of the unclamped separation; the graph is symmetric and irreflexive |
| ChannelService.AssignmentService.ApplyRenderLayerMask | Runtime/Implementations/Services/DynamicLightRenderLayerAssignmentService.cs:228-270 | every live renderer of the room gets the mask; no other renderer changes |
| ChannelService.AssignmentService.GlobalAssign | Runtime/Implementations/Services/DynamicLightRenderLayerAssignmentService.cs:538-561 | static mode: every room gets and records the greedy colouring in some order listing every room by non-increasing degree (0 included), conflicting rooms with masks differ, and no cooldown or write is recorded; which order rooms of equal degree take is left open, as `List.Sort` is unstable |
| ChannelService.AssignmentService.StaticRecordedProper | Runtime/Implementations/Services/DynamicLightRenderLayerAssignmentService.cs:538-561 | whatever degree order the sort left, every room's recorded static mask is 0 or a palette mask, and two conflicting rooms that both hold a mask hold different ones |
| ChannelService.AssignmentService.WriteAll | Runtime/Implementations/Services/DynamicLightRenderLayerAssignmentService.cs:556-560 | every room's live renderers get its mask and the service records it; other renderers and keys keep theirs |
| ChannelService.AssignmentService.WrittenRoomByRoom | Runtime/Implementations/Services/DynamicLightRenderLayerAssignmentService.cs:556-560 | with distinct keys and disjoint rooms, the room-by-room writes give each room its own mask on renderers and in the record |
| ChannelService.AssignmentService.SnapshotCurrent | Runtime/Implementations/Services/DynamicLightRenderLayerAssignmentService.cs:563-615 | one snapshot per room, each 0 or a palette mask, as `SnapshotRoom` states |
| ChannelService.AssignmentService.ApplyDeltas | Runtime/Implementations/Services/DynamicLightRenderLayerAssignmentService.cs:205-226 | each room whose delta is due has its mask written to its live renderers and recorded and starts a cooldown; every other room is left as it was; the writes stay spaced and no mask goes back to 0 |
| ChannelService.AssignmentService.StaticOutcome | Runtime/Implementations/Services/DynamicLightRenderLayerAssignmentService.cs:66-70 | in static mode, the outcome of `Assign` is the greedy colouring in some non-increasing degree order; no cooldown or write starts; the remembered observer position and the masks recorded for keys that are no room are kept |
| ChannelService.AssignmentService.Assign | Runtime/Implementations/Services/DynamicLightRenderLayerAssignmentService.cs:50-187 | without a rooms parent nothing changes; with no room only the room lists change; otherwise the rooms, bounds and graph are rebuilt, static mode gives the greedy colouring in some non-increasing degree order, starts no cooldown or write and keeps the remembered observer position and the masks recorded for keys that are no room, and dynamic mode does nothing within the move gate and else recomputes |
| ChannelService.AssignmentService.AssignRooms | Runtime/Implementations/Services/DynamicLightRenderLayerAssignmentService.cs:57-187 | below a rooms parent: the rooms are collected from its children; without one nothing else changes, with some the result is `Assigned`, whose static branch keeps cooldowns, writes, the remembered observer position and the masks recorded for keys that are no room |
| ChannelService.AssignmentService.AssignCollected | Runtime/Implementations/Services/DynamicLightRenderLayerAssignmentService.cs:63-187 | once rooms are collected, the bounds and graph are rebuilt and the mode's outcome `Assigned` follows (static: the colouring, with cooldowns, writes, the remembered observer position and non-room masks kept) |
| ChannelService.AssignmentService.AssignDynamic | Runtime/Implementations/Services/DynamicLightRenderLayerAssignmentService.cs:72-187 | within the move gate no assignment state changes; past it the service recomputes from the snapshot and remembers the position |
| ChannelService.AssignmentService.Rebuild | Runtime/Implementations/Services/DynamicLightRenderLayerAssignmentService.cs:63-64 | the bounds and conflict graph are rebuilt over the collected rooms and the graph is symmetric and irreflexive |
| ChannelService.AssignmentService.Recompute | Runtime/Implementations/Services/DynamicLightRenderLayerAssignmentService.cs:80-186 | the snapshot; the planned masks, which are `PlanAfter` of it and meet the zone guarantees; the due deltas applied; and the observer's position remembered |
| ChannelService.AssignmentService.PlanMasks | Runtime/Implementations/Services/DynamicLightRenderLayerAssignmentService.cs:82-181 | the zones, the snapshot and the passes plan the masks `PlanAfter(.., Outside)` of the snapshot, with the zone guarantees; nothing changes |
| ChannelService.AssignmentService.WriteRoom | Runtime/Implementations/Services/DynamicLightRenderLayerAssignmentService.cs:222-224 | a due room's renderers get the mask, the mask is recorded, the cooldown starts and the write is logged |
| ChannelService.AssignmentService.WriteDue | Runtime/Implementations/Services/DynamicLightRenderLayerAssignmentService.cs:207-225 | the loop of `ApplyDeltas` leaves the maps, the write log and the renderer masks as the room-by-room folds of the due deltas |
| ChannelService.AssignmentService.WriteStep | Runtime/Implementations/Services/DynamicLightRenderLayerAssignmentService.cs:209-224 | one room of the loop: written when its delta is due, skipped otherwise, keeping the loop's meaning |
| ChannelController.MaxUsable | Runtime/Adapters/Components/DynamicLightRenderLayerController.cs:85-89 | the largest colour count the controller allows lies in 1..31 |
| ChannelController.ClampAgreesWithService | Runtime/Adapters/Components/DynamicLightRenderLayerController.cs:83-91 | a colour count the controller clamped is kept unchanged by the service's constructor, which applies the same bound |
| ChannelController.SpacedApart | Runtime/Adapters/Components/DynamicLightRenderLayerController.cs:41-50 | in a sequence whose consecutive entries are at least a positive gap apart, any two entries are at least that gap apart |
| ChannelController.MaskToColorIndex | Runtime/Adapters/Components/DynamicLightRenderLayerController.cs:275-293 | -1 for mask 0; otherwise the lowest channel below `colorCount` whose bit is set, or -1 when there is none |
| ChannelController.ChannelOfMask | Runtime/Adapters/Components/DynamicLightRenderLayerController.cs:282-290 | channel `j`'s bit is set in channel `c`'s palette mask exactly when `j == c`, so the index read back is the channel written |
| ChannelController.ReadRoomRenderingLayerMask | Runtime/Adapters/Components/DynamicLightRenderLayerController.cs:238-273 | 0 for a room without a live renderer; otherwise a mask that occurs among its live renderers at least as often as any other |
| ChannelController.StaticAssign | Runtime/Adapters/Components/DynamicLightRenderLayerController.cs:67-76 | a static `Assign` with rooms leaves the greedy colouring in some non-increasing degree order and starts no cooldown or write; the remembered observer position and the masks recorded for keys that are no room are kept |
| ChannelController.LayerController.constructor | Runtime/Adapters/Components/DynamicLightRenderLayerController.cs:326-367 | the serialised fields as given, no service, no assignment made yet |
| ChannelController.LayerController.ClampColorCountToStoredConfig | Runtime/Adapters/Components/DynamicLightRenderLayerController.cs:83-91 | the colour count is raised to 1 or lowered to `MaxUsable`, and kept when already in range |
| ChannelController.LayerController.Start | Runtime/Adapters/Components/DynamicLightRenderLayerController.cs:26-31 | the colour count is clamped, a fresh empty service is created with exactly that colour count, and the first tick is due now |
| ChannelController.LayerController.EnsureService | Runtime/Adapters/Components/DynamicLightRenderLayerController.cs:93-100 | an existing service is kept; otherwise one is created as `Start` does |
| ChannelController.LayerController.UpdateInput | Runtime/Adapters/Components/DynamicLightRenderLayerController.cs:53-62 | the input carries the rooms parent, the component's position and the host's clock, and is dynamic exactly when `radiusIn > 0` |
| ChannelController.LayerController.Update | Runtime/Adapters/Components/DynamicLightRenderLayerController.cs:33-65 | when no tick is due nothing changes; otherwise `Tick` runs, with `Tick`'s outcome `Assigned` (in static mode cooldowns, writes, the remembered observer position and non-room masks are kept) |
| ChannelController.LayerController.Tick | Runtime/Adapters/Components/DynamicLightRenderLayerController.cs:50-64 | the next tick is `max(0.01, tickInterval)` later and the service runs an assignment with `UpdateInput` (dynamic when `radiusIn > 0`); with rooms it ends `Assigned` from its state before the tick, and a new service from an empty one; in static mode that keeps cooldowns, writes, the remembered observer position and non-room masks |
| ChannelController.LayerController.UpdatesAreSpaced | Runtime/Adapters/Components/DynamicLightRenderLayerController.cs:45-50 | two assignments made by `Update` are at least `max(0.01, tickInterval)` apart |
| ChannelController.LayerController.AssignOnceInput | Runtime/Adapters/Components/DynamicLightRenderLayerController.cs:70-74 | the input carries the settings, no observer and the host's clock, and is static |
| ChannelController.LayerController.AssignOnce | Runtime/Adapters/Components/DynamicLightRenderLayerController.cs:67-76 | a static assignment: with rooms, every room ends with the greedy colouring in some non-increasing degree order; an existing service starts no cooldown or write and keeps its remembered observer position and the masks recorded for keys that are no room, and a new one records masks only for rooms |
| ChannelController.LayerController.Initiate | Runtime/Adapters/Components/DynamicLightRenderLayerController.cs:78-81 | the rooms parent is set and nothing else changes |
| CullingConfig.Validate | Runtime/Implementations/DataContainers/RoomCullingConfig.cs:39-60 | each field is clamped in the order `ValidateValues` overwrites it; clamping only raises a field and keeps one already within its bound |
| CullingConfig.ValidatedUnchanged | Runtime/Implementations/DataContainers/RoomCullingConfig.cs:39-60 | settings that meet every bound are left as they are |
| CullingConfig.ValidateIdempotent | Runtime/Implementations/DataContainers/RoomCullingConfig.cs:39-60 | validating twice is validating once |
| CullingConfig.DefaultsValidated | Runtime/Implementations/DataContainers/RoomCullingConfig.cs:13-33 | the defaults meet every bound |
| CullingConfig.RoomCullingConfig.constructor | Runtime/Implementations/DataContainers/RoomCullingConfig.cs:13-35 | every field has its default |
| CullingConfig.RoomCullingConfig.ValidateValues | Runtime/Implementations/DataContainers/RoomCullingConfig.cs:39-60 | the fields become their clamped values and the render-pipeline flag is kept |
| TimeSlicing.VisitsAt | Runtime/Implementations/Culling/TimeSliceStepper.cs:50-58 | within one round the `k`-th call of `Next` returns the first index handed out plus `k`, wrapped at `total` |
| TimeSlicing.VisitsDistinct | Runtime/Implementations/Culling/TimeSliceStepper.cs:50-58 | at most `total` calls of `Next` return different indices, each in `0 .. total-1`: one tick checks no room twice |
| TimeSlicing.FullSweepVisitsAll | Runtime/Implementations/Culling/TimeSliceStepper.cs:38-67 | after `StartFullSweep` the `total` calls of a sweep return `0, 1, ..., total-1` |
| TimeSlicing.TimeSliceStepper.constructor | Runtime/Implementations/Culling/TimeSliceStepper.cs:13-18 | the head starts at 0 and no full sweep is pending |
| TimeSlicing.TimeSliceStepper.EndTick | Runtime/Implementations/Culling/TimeSliceStepper.cs:23-26 | the full-sweep request is cleared and nothing else changes |
| TimeSlicing.TimeSliceStepper.GetIterations | Runtime/Implementations/Culling/TimeSliceStepper.cs:31-45 | no iterations without rooms; every room while a full sweep is pending; otherwise `checksPerFrame` raised to 1 and capped at `total` |
| TimeSlicing.TimeSliceStepper.Next | Runtime/Implementations/Culling/TimeSliceStepper.cs:50-58 | the head, wrapped to 0 once it reaches `total`, is returned and the head moves one past it |
| TimeSlicing.TimeSliceStepper.StartFullSweep | Runtime/Implementations/Culling/TimeSliceStepper.cs:63-67 | a full sweep is requested from index 0 |
| LightCaching.Remember | Runtime/Implementations/Culling/LightCache.cs:33-41 | the dictionary gets the value only when the key has no entry yet: first write wins |
| LightCaching.RememberIdempotent | Runtime/Implementations/Culling/LightCache.cs:26-42 | remembering again changes nothing, whatever value is offered |
| LightCaching.OriginalIntensity | Runtime/Implementations/Culling/LightCache.cs:47-60 | 0 for a dead light, else the cached intensity, else the current one |
| LightCaching.OriginalShadow | Runtime/Implementations/Culling/LightCache.cs:65-78 | false for a dead light, else the cached flag, else whether it casts shadows now |
| LightCaching.CachedIgnoresCurrent | Runtime/Implementations/Culling/LightCache.cs:47-78 | once a light is cached, the getters no longer depend on its current intensity or shadows |
| LightCaching.CachingKeepsGetters | Runtime/Implementations/Culling/LightCache.cs:26-78 | caching a live light does not change what the getters report for it |
| LightCaching.LightCache.constructor | Runtime/Implementations/Culling/LightCache.cs:16-21 | both dictionaries start empty |
| LightCaching.LightCache.EnsureCached | Runtime/Implementations/Culling/LightCache.cs:26-42 | nothing for a dead light; otherwise each dictionary records the light's current value unless it already has one |
| LightIntensityUtils.Eased | Runtime/Implementations/Utilities/LightIntensityUtils.cs:66 | the easing variable lies strictly between 0 and 1 between the two distances |
| LightIntensityUtils.FalloffBounds | Runtime/Implementations/Utilities/LightIntensityUtils.cs:51-69 | for a non-negative original the falloff lies between 0 and the original |
| LightIntensityUtils.FalloffNonIncreasing | Runtime/Implementations/Utilities/LightIntensityUtils.cs:51-69 | a light farther away is never brighter |
| LightIntensityUtils.Apply | Runtime/Implementations/Utilities/LightIntensityUtils.cs:23-77 | nothing for a missing room or one that is Off; otherwise each live light of the room is cached, set to the falloff of its first-seen original at its distance, and loses its shadows when that is not positive; every other light is kept |
| LightIntensityUtils.ApplyStep | Runtime/Implementations/Utilities/LightIntensityUtils.cs:38-76 | one light of `Apply`'s loop keeps the loop's meaning |
| LightIntensityUtils.ApplyLive | Runtime/Implementations/Utilities/LightIntensityUtils.cs:46-75 | a live light is cached, then gets its falloff, losing its shadows when that is not positive |
| LightIntensityUtils.ZeroAll | Runtime/Implementations/Utilities/LightIntensityUtils.cs:82-104 | nothing for a missing room; otherwise each live light of the room is cached, then darkened and unshadowed; every other light is kept |
| LightIntensityUtils.ZeroStep | Runtime/Implementations/Utilities/LightIntensityUtils.cs:89-103 | one light of `ZeroAll`'s loop keeps the loop's meaning |
| RoomRecords.RootPosition | Runtime/Implementations/DataContainers/RoomRendererRecord.cs:48 | the root's position when the root is live, the origin otherwise |
| RoomRecords.RoomRendererRecord.constructor | Runtime/Implementations/DataContainers/RoomRendererRecord.cs:43-50 | a new record is Off and centred on its root, or on the origin without one, and keeps its root, renderers and lights |
| Scene.LiveBoundsMembers | Runtime/Implementations/Culling/RoomRegistry.cs:93-112 | the boxes gathered are exactly the boxes of the live renderers of the list |
| Scene.AccumulateBounds | Runtime/Implementations/Culling/RoomRegistry.cs:93-112 | `has` tells whether a renderer is live; if so the box is the accumulated hull of the live renderers' boxes (the same code in the assignment service is modelled by this member too) |
| Geometry.BoundsAround | Runtime/Implementations/Services/DynamicLightRenderLayerAssignmentService.cs:456 | a box built around a centre has that centre |
| Geometry.Encapsulate | Runtime/Implementations/Culling/RoomRegistry.cs:110 | the smallest box covering both boxes (the same code in the assignment service is modelled by this member too) |
| Geometry.HullCovers | Runtime/Implementations/Culling/RoomRegistry.cs:93-112 | the accumulated box covers every box of the list |
| Geometry.HullIsLeast | Runtime/Implementations/Culling/RoomRegistry.cs:93-112 | any box covering the whole list covers the accumulated box |
| Geometry.SqDistanceBoxes | Runtime/Implementations/Services/DynamicLightRenderLayerAssignmentService.cs:189-195 | the squared box-to-box distance is never negative |
| Geometry.SqDistanceBoxesSymmetric | Runtime/Implementations/Services/DynamicLightRenderLayerAssignmentService.cs:189-195 | the box-to-box distance does not depend on the order of its two boxes |
| Geometry.SqDistancePointBox | Runtime/Implementations/Services/DynamicLightRenderLayerAssignmentService.cs:197-203 | the squared point-to-box distance is never negative |
| Registry.FilterLiveMembers | Runtime/Implementations/Culling/RoomRegistry.cs:51-69 | the filtered list holds exactly the live handles of the list |
| Registry.FilterLiveKeepsLive | Runtime/Implementations/Culling/RoomRegistry.cs:51-69 | a list of live handles is kept as it is |
| Registry.FilterLiveDistinct | Runtime/Implementations/Culling/RoomRegistry.cs:51-69 | filtering a list without repetitions gives one without repetitions |
| Registry.CollectLive | Runtime/Implementations/Culling/RoomRegistry.cs:51-69 | the filter loop keeps the live handles of the list in order |
| Registry.LiveChildrenFrom | Runtime/Implementations/Culling/RoomRegistry.cs:38-45 | every kept child is a child of the rooms parent |
| Registry.LiveChildrenTree | Runtime/Implementations/Culling/RoomRegistry.cs:38-45 | dropping the children with a dead transform keeps the hierarchy a tree |
| Registry.CentreOfLeastBox | Runtime/Implementations/Culling/RoomRegistry.cs:81-115 | a room with a live renderer is centred on the least box covering every live renderer's bounds; without one, on its root's position, or the origin without a live root |
| Registry.NoneLiveNoBounds | Runtime/Implementations/Culling/RoomRegistry.cs:87 | without a live renderer there are no live bounds |
| Registry.RoomRegistry.constructor | Runtime/Implementations/Culling/RoomRegistry.cs:24 | the registry starts without rooms |
| Registry.BuildRecords | Runtime/Implementations/Culling/RoomRegistry.cs:38-73 | one new Off record per child with a live transform, in child order, holding the live renderers and lights found below it; no record is listed twice |
| Registry.RoomRegistry.Rebuild | Runtime/Implementations/Culling/RoomRegistry.cs:29-76 | the previous rooms are dropped; without a root there are none; otherwise one fresh Off record per child with a live transform, in child order, holding the live renderers and lights found below it and centred as `RefreshCenters` does; the lists of a tree are disjoint |
| Registry.RoomRegistry.BuiltTree | Runtime/Implementations/Culling/RoomRegistry.cs:38-73 | records built from a tree have duplicate-free and disjoint lists |
| Registry.RoomRegistry.RefreshCenters | Runtime/Implementations/Culling/RoomRegistry.cs:81-116 | every room's centre becomes `CentreOf` its live renderers or its root, and the render states are kept |
| RoomRendererUtils.StateFor | Runtime/Implementations/Utilities/RoomRendererUtils.cs:36 | On exactly when enabling |
| RoomRendererUtils.SetEnabled | Runtime/Implementations/Utilities/RoomRendererUtils.cs:16-42 | nothing for a missing room; otherwise each live renderer of the room is switched, the state becomes On exactly when enabling, and when disabling with a cache the room's live lights are cached, darkened and unshadowed |
| ShadowSelection.Classify | Runtime/Implementations/Services/ShadowSelectionService.cs:56-89 | a light asks only for a real shadow mode |
| ShadowSelection.ClassifyBands | Runtime/Implementations/Services/ShadowSelectionService.cs:56-89 | a lit, originally shadowed light is a Soft candidate exactly up to `SoftEnter`, a Hard one exactly between `SoftEnter` and `MaxEnter`, left as it is exactly between `MaxEnter` and `MaxExit`, loses its shadows exactly when unlit or beyond `MaxExit`; a light that had no shadows is left |
| ShadowSelection.CandidatesOfMembers | Runtime/Implementations/Services/ShadowSelectionService.cs:40-91 | the candidates are exactly the live lights of the rooms that ask for a mode, at their distance and with that mode |
| ShadowSelection.ChosenLeavesOthers | Runtime/Implementations/Services/ShadowSelectionService.cs:26-127 | a light of none of the rooms keeps its shadows and its resolution |
| ShadowSelection.GrantedWithinBudget | Runtime/Implementations/Services/ShadowSelectionService.cs:102-126 | no more lights keep their mode than the budget `allowed` |
| ShadowSelection.NearestFirst | Runtime/Implementations/Services/ShadowSelectionService.cs:100-126 | for candidates sorted by distance, a light that keeps its mode is no farther than a light that loses it |
| ShadowSelection.SelectedFrom | Runtime/Implementations/Services/ShadowSelectionService.cs:40-126 | what the collecting and budget loops leave on a light is the selection's outcome for it |
| ShadowSelection.ClearRoom | Runtime/Implementations/Services/ShadowSelectionService.cs:141-154 | the live lights of the room lose their shadows; every other light is kept |
| ShadowSelection.ForceNone | Runtime/Implementations/Services/ShadowSelectionService.cs:132-156 | every live light of every room, on or off, casts no shadows; every other light is kept |
| ShadowSelection.ShadowSelectionService.constructor | Runtime/Implementations/Services/ShadowSelectionService.cs:21 | no candidates |
| ShadowSelection.ShadowSelectionService.CollectLight | Runtime/Implementations/Services/ShadowSelectionService.cs:50-89 | one light of the collecting loop: it is left, loses its shadows, or joins the candidates, as `Classify` says |
| ShadowSelection.ShadowSelectionService.CollectRoom | Runtime/Implementations/Services/ShadowSelectionService.cs:47-90 | the inner collecting loop over one room's lights keeps the loop's meaning |
| ShadowSelection.ShadowSelectionService.Collect | Runtime/Implementations/Services/ShadowSelectionService.cs:38-91 | the candidates are those of the lights of the rooms that are on, and dropped lights have lost their shadows |
| ShadowSelection.ShadowSelectionService.GrantOne | Runtime/Implementations/Services/ShadowSelectionService.cs:105-125 | one candidate: its mode when within the budget, none beyond, and low resolution when asked |
| ShadowSelection.ShadowSelectionService.Grant | Runtime/Implementations/Services/ShadowSelectionService.cs:102-126 | the first `allowed` sorted candidates get their mode, the rest none |
| ShadowSelection.ShadowSelectionService.Apply | Runtime/Implementations/Services/ShadowSelectionService.cs:26-127 | with no budget every light of the rooms loses its shadows; otherwise the nearest candidates within the budget keep their mode, the others lose it, and lights of no room are untouched |
| ShadowSelection.ShadowSelectionService.ClearCollected | Runtime/Implementations/Services/ShadowSelectionService.cs:93-98 | without candidates, every light of the rooms loses its shadows |
| ShadowSelection.ShadowSelectionService.SortAndGrant | Runtime/Implementations/Services/ShadowSelectionService.cs:100-126 | the candidates are sorted by distance and the budget loop runs over them |
| ShadowSelection.Allowed | Runtime/Implementations/Services/ShadowSelectionService.cs:102 | the budget is the smaller of the shadow count and the number of candidates |
| CullingRules.DistanceSqr | Runtime/Implementations/Services/RoomCullingService.cs:171 | the squared distance to the user is never negative |
| CullingRules.TickedHysteresis | Runtime/Implementations/Services/RoomCullingService.cs:153-191 | a check switches a room on only within the enable threshold and off only at or beyond the disable threshold (or out of the band, or without renderers); strictly between them it keeps its state |
| CullingRules.TickedStable | Runtime/Implementations/Services/RoomCullingService.cs:171-186 | with the enable threshold below the disable threshold, a second check from the same place changes nothing |
| CullingRules.TickedTogglesAtEqualThresholds | Runtime/Implementations/Services/RoomCullingService.cs:175-182 | with equal thresholds a room at exactly that distance changes state on every check; validation allows equal thresholds |
| CullingRules.TickTargets | Runtime/Implementations/Services/RoomCullingService.cs:148-192 | one state per room; its elements are stated by `TickTargetsAt` |
| CullingRules.TickTargetsAt | Runtime/Implementations/Services/RoomCullingService.cs:148-192 | a visited room reaches the state one check gives it, every other room keeps its state |
| CullingRules.PrimeTargets | Runtime/Implementations/Services/RoomCullingService.cs:277-296 | one primed state per room |
| CullingRules.PrimedIsTickFromOff | Runtime/Implementations/Services/RoomCullingService.cs:277-296 | priming a room is the check of a tick on an Off room, On exactly in the band and within the enable threshold |
| CullingRules.ThresholdsOrdered | Runtime/Implementations/DataContainers/RoomCullingConfig.cs:43-44 | validated settings give ordered squared thresholds, the ones `RecomputeDistances` stores |
| CullingRules.IntensityConfigFor | Runtime/Implementations/Services/RoomCullingService.cs:206-212 | the inner distance is at least 0, the disable distance at least the configured one, the exponent at least 1; on validated settings exactly the configured values |
| CullingRules.ShadowConfigFor | Runtime/Implementations/Services/RoomCullingService.cs:228-242 | a budget of at least 0, ordered enter and exit distances, low resolution forced; on validated settings the configured budget and enter distances |
| CullingPass.ZeroedKeeps | Runtime/Implementations/Utilities/LightIntensityUtils.cs:82-104 | zeroing a room caches its lights first, so the getters report what they did (`EnsureCached` is first-write-wins) |
| CullingPass.AppliedKeeps | Runtime/Implementations/Utilities/LightIntensityUtils.cs:38-76 | applying the falloff caches the lights first, so the getters report what they did (`EnsureCached` is first-write-wins) |
| CullingPass.PassedOn | Runtime/Implementations/Services/RoomCullingService.cs:216-221 | an On room gets the falloff on its lights, extending the pass by one room |
| CullingPass.PassedOff | Runtime/Implementations/Services/RoomCullingService.cs:222-225 | an Off room has its lights darkened, extending the pass by one room |
| CullingPass.Enabled | Runtime/Implementations/Services/RoomCullingService.cs:204-221 | `EnabledRooms` holds exactly the rooms that are On, in order |
| CullingPass.EnabledLights | Runtime/Implementations/Services/RoomCullingService.cs:244 | the lights the shadow selection reads are those of the rooms that are On |
| CullingPass.CachedAllTwice | Runtime/Implementations/Services/RoomCullingService.cs:184-190 | zeroing the same lights twice through the cache caches them once |
| CullingPass.Settle | Runtime/Implementations/Services/RoomCullingService.cs:202-245 | the intensity pass followed by a selection that leaves lights of rooms that are not On alone settles every light |
| CullingPass.SettleAfterLoop | Runtime/Implementations/Services/RoomCullingService.cs:137-197 | a pass that settles the lights after a loop that touched only lights of rooms ending Off settles them from the state before the loop |
| CullingService.RoomCullingService.constructor | Runtime/Implementations/Services/RoomCullingService.cs:67-80 | the config is validated and the thresholds are its squared distances; empty cache, registry and selection; the stepper at index 0 |
| CullingService.RoomCullingService.RecomputeDistances | Runtime/Implementations/Services/RoomCullingService.cs:304-313 | the thresholds become the squares of the room distances, and the maximum shadow distance is passed on when the config asks for it |
| CullingService.RoomCullingService.OnConfigChanged | Runtime/Implementations/Services/RoomCullingService.cs:119-124 | the config is validated, the thresholds recomputed and a full sweep scheduled from index 0 |
| CullingService.RoomCullingService.RefreshCenters | Runtime/Implementations/Services/RoomCullingService.cs:129-132 | every room is re-centred as the registry does and the render states are kept |
| CullingService.RoomCullingService.ApplyIntensityAndShadows | Runtime/Implementations/Services/RoomCullingService.cs:202-245 | the rooms that are On are listed and get the falloff, every other room is zeroed, then the shadow selection runs over the enabled rooms; every light settles |
| CullingService.RoomCullingService.ShadowPass | Runtime/Implementations/Services/RoomCullingService.cs:228-244 | the shadow configuration is derived from the config and the selection runs over the rooms that are On; other lights keep their shadows |
| CullingService.RoomCullingService.IntensityPass | Runtime/Implementations/Services/RoomCullingService.cs:204-226 | `EnabledRooms` lists the rooms that are On; every On room's lights get the falloff and every other room's are darkened; the getters report what they did |
| CullingService.RoomCullingService.PassRoom | Runtime/Implementations/Services/RoomCullingService.cs:216-225 | an On room is listed and gets the falloff; any other room is zeroed |
| CullingService.RoomCullingService.CheckRoom | Runtime/Implementations/Services/RoomCullingService.cs:151-191 | a check moves the room to `Ticked` of its state; its renderers are switched exactly when the state changes; a room in the band that ends Off has its lights zeroed |
| CullingService.RoomCullingService.TickStep | Runtime/Implementations/Services/RoomCullingService.cs:148-192 | the stepper hands out the next visit and that room reaches its target state, keeping the loop's meaning |
| CullingService.RoomCullingService.TickRooms | Runtime/Implementations/Services/RoomCullingService.cs:148-192 | the visited rooms reach their targets, only lights of rooms that end Off change, and exactly the rooms whose state changed have their renderers switched |
| CullingService.RoomCullingService.Tick | Runtime/Implementations/Services/RoomCullingService.cs:137-197 | nothing without rooms; otherwise the stepper's slice is checked (all rooms while a full sweep is pending), the rooms reach `TickTargets` and keep their centres, changed rooms switch their renderers, the sweep request is cleared, and every light settles |
| CullingService.RoomCullingService.ApplyAfterLoop | Runtime/Implementations/Services/RoomCullingService.cs:196 | after a loop that changed only lights of rooms now Off, the intensity and shadow pass settles every light against the state before the loop |
| CullingService.RoomCullingService.ForceOffStep | Runtime/Implementations/Services/RoomCullingService.cs:89-91 | one room has its lights zeroed through the cache and is switched off |
| CullingService.RoomCullingService.ForceAllOff | Runtime/Implementations/Services/RoomCullingService.cs:85-93 | every room is Off and keeps its centre, its renderers are disabled, and its live lights are dark and unshadowed while the getters report their originals |
| CullingService.RoomCullingService.ForceOnStep | Runtime/Implementations/Services/RoomCullingService.cs:102-103 | one room is switched on; the lights are left alone |
| CullingService.RoomCullingService.ForceAllOn | Runtime/Implementations/Services/RoomCullingService.cs:98-105 | every room is On and keeps its centre, its renderers are enabled, and the lights are untouched |
| CullingService.RoomCullingService.CollectRooms | Runtime/Implementations/Services/RoomCullingService.cs:250-262 | the registry is rebuilt under the root, every room is forced off as `ForceAllOff` does, and a full sweep is scheduled |
| CullingService.RoomCullingService.PrimeStep | Runtime/Implementations/Services/RoomCullingService.cs:279-295 | one room: off out of the band, else on exactly within the enable threshold, and zeroed when it stays off |
| CullingService.RoomCullingService.PrimeRooms | Runtime/Implementations/Services/RoomCullingService.cs:277-296 | every room reaches its primed state, only lights of rooms ending Off change, and every room's renderers follow its state |
| CullingService.RoomCullingService.PrimeInitial | Runtime/Implementations/Services/RoomCullingService.cs:267-299 | nothing without rooms; otherwise every room reaches `Primed` around the user, keeps its centre, its renderers follow the state, and every light settles |
| CullingService.RoomCullingService.InitiateCullingServices | Runtime/Implementations/Services/RoomCullingService.cs:110-114 | the invariant holds, a full sweep is scheduled from index 0, and every rebuilt room reaches its primed state around the user |

## Left out

- **Unity scene traversal.** `GetComponentsInChildren`, `GetChild`, the `BoxCollider` lookup and the null-object checks are host work. A rooms parent is a value `Hierarchy` of children. For each child it gives what an active-only search and a full search find: renderers, lights and the first box collider. Every id is checked for liveness against the host tables.
- **The `IsTree` assumption.** The model assumes the found lists form a tree: distinct child transforms, and every light and renderer below exactly one child and found there once. Unity's hierarchy guarantees this; the model only assumes it. The disjointness of the rooms' lists, which the services rely on, is proved from it.
- **Floating point.** `Mathf.Sqrt` is replaced by comparisons of squares. `Mathf.Pow` is a parameter `pow`, assumed only to map `[0, 1]` into `[0, 1]` for an exponent of at least 1 and to be monotone there. Rounding is not modelled.
- **Host inputs.** The following are parameters:
  - `Time.time`;
  - the user's or observer's position (`_getUserPosition`, the component's `transform.position`);
  - the light-to-camera distances `Vector3.Distance(l.transform.position, camPos)`, a non-negative `dist` per light.
- **Render pipeline writes.** `ApplyRenderLayerMask`'s URP writes of `renderingLayerMask`/`renderingLayers` under `HAS_URP` are modelled as writes of the mask to the renderers' `layerMask` entries. The lights' layer writes are not modelled.
- **`ShadowDistanceSetter`.** It writes a global of the render pipeline. It is modelled as an abstract sink, the ghost log `shadowDistanceSets` that `RecomputeDistances` appends to.
- **Tie-breaks.** Ties that depend on `Dictionary` order or on an unstable `List.Sort` are left open:
  - `OrderByDescending(...).First()` at DynamicLightRenderLayerAssignmentService.cs:606 and DynamicLightRenderLayerController.cs:272 returns some key of largest count;
  - the `List.Sort`s at ShadowSelectionService.cs:100 and DynamicLightRenderLayerAssignmentService.cs:305 are unstable. The model sorts with a stable insertion sort, but no contract promises an order among equal keys. The shadow candidates are stated as "sorted and a permutation". The static colouring is stated as the greedy colouring in SOME order that lists every room once by non-increasing degree (`StaticAssigned`), so the masks .NET's introsort leads to are among those the contracts allow.
  - The stable `OrderByDescending` at DynamicLightRenderLayerAssignmentService.cs:105 is modelled exactly: `InsideOrderKeepsTies` proves that inside rooms of equal degree keep their increasing index order.
- **The `onDisabled` callback.** The callback of `RoomRendererUtils.SetEnabled` is always `LightIntensityUtils.ZeroAll` through the service's cache. It is modelled as an optional `LightCache`, and zeroing through it is inlined.
- **`SoftExit`.** `DistanceShadowsConfig.SoftExit` is carried but never read, and the model never reads it either.
- **`EnabledRooms`.** Its capacity and other list-reuse details are not modelled.
- **Controller and UI glue.** The controller's gizmo and label drawing, `ColorForIndex` (HSV floats), `ClosestPointOnBounds` and the gizmo's own `ComputeRoomBounds` are display only. The same goes for `OnValidate` and `OnDisable`.
- **Components not in the model:**
  - `Runtime/Adapters/Components/RoomCullingController.cs`, an IMGUI window around the culling service, is not part of this model;
  - `Editor/CustomInspectors/DynamicLightRenderLayerEditor.cs`, an editor inspector, is not part of this model.
- **Integer width.** Integer counters (`_head`, counts, the shadow budget) wrap only well outside the range a scene reaches, so they are unbounded `int`s. Masks, where width matters, are `uint32`.
- InitiateCullingServices: this contract is weaker on purpose. It states only the service invariant, the scheduled full sweep from index 0, and that every rebuilt room reaches its `Primed` state around the user. The rebuilt rooms, the zeroed lights, the settled lights and the renderers are stated by `CollectRooms` and `PrimeInitial`, which it calls in turn.
