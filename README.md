# Pilates class builder — a verified model of the class-plan generator

This project models the class-plan generator of a Pilates class builder. The generator is the
`ClassBuilder` of `class_builder.py`. It turns a read-only catalog of exercises into a class
plan: ten sections with exercises, each section on one piece of equipment. The plan has to keep
these rules:

- footwork comes first and stretch comes last;
- the eight middle sections are reordered so that the secondary equipment can be used as one block;
- once the class leaves a piece of equipment it does not go back to it ("linear flow");
- spring changes are counted against a cap;
- no section is left empty.

A plan that breaks a rule is reported as a list of violations. The generator retries and
returns the first plan without violations. Failing that, it returns the plan with the fewest
violations, with its empty sections removed and the rest renumbered.

The model is written module by module, following the source:

| module | what it holds |
|---|---|
| `Util` | `Option`/`Result`, filtering (a Python list comprehension), the stable partition, index and distinctness helpers |
| `Catalog` | `Exercise`, sections, levels and their constants, `_level_matches`, `_get_level_config`, `get_exercises` |
| `Tallies` | the per-section equipment count dictionaries, as insertion-ordered association lists, and `max(counts, key=counts.get)` |
| `Sequencer` | the grouping of the catalog by section and `_optimize_section_order` |
| `Flow` | the linear-flow rule, `_enforce_linear_flow` and `_count_equipment_transitions` |
| `Allocator` | `_allocate_equipment_blocks`: default cascade, secondary run, post-run cascade, repair |
| `Plans` | the plan records (`PlanExercise`, `PlanSection`, `ClassPlan`) |
| `Selection` | the candidate order of a section and the selection loop of `_generate_class_attempt` |
| `Validation` | `_validate_equipment_flow` and `_validate_class` |
| `Pruning` | the fallback plan's removal of empty sections and renumbering |
| `Generator` | `_generate_class_attempt` and the retry loop of `generate_class` |

The code that changes state step by step is written as methods with loops and invariants:

- the allocation passes;
- the linear-flow repair;
- the transition counter;
- the selection loop;
- both validators;
- the pruning loop;
- the retry loop.

Each method is proved against a function or ghost predicate that says what the step computes:
`LinearRepair` for the repair, `Greedy` for the selection loop, `RunDrawn` and `PlanWith` for
the allocation passes, `ViolationsOf` and `Pruned` for the validators and the pruning loop.
The pure parts are functions with lemmas: level matching, the catalog query, the section order
and the violation list.

Every random draw of the source is an explicit parameter of the model:

- `AllocationDraws` holds the draws of one allocation;
- `AttemptDraws` holds those of one attempt;
- a `seq<AttemptDraws>` holds those of all retries.

The proofs therefore hold for every outcome of the draws. `ShuffleReachesAll` and
`ArrangeReachesAll` show that the shuffle oracle can produce every ordering that
`random.shuffle` followed by the spring sort can produce.

## Model

| member | source | states |
|---|---|---|
| Catalog.FlexibleSectionsDistinct | class_builder.py:20-36 | the eight flexible sections are pairwise different, and none has the id of footwork or stretch |
| Catalog.LevelMatchesTotalPreorder | class_builder.py:295-298 | level matching is reflexive, transitive and total |
| Catalog.UnknownLevelIsIntermediate | class_builder.py:295-298 | an id that is not one of the four levels behaves exactly like "intermediate", as exercise level and as class level |
| Catalog.LevelExtremes | class_builder.py:295-298 | beginner exercises suit every class; an advanced-plus class accepts every exercise |
| Catalog.FindLevel | class_builder.py:302-304 | the lookup finds an entry with the requested id, and finds none exactly when no entry has that id |
| Catalog.GetLevelConfig | class_builder.py:300-305 | a known id gets its own entry; an unknown id gets the intermediate entry (index 1); the entry's level number is the id's rank |
| Catalog.GetExercises | class_builder.py:262-293 | the result is the catalog entries passing every active filter (an absent or empty filter is inactive), each as often as in the catalog; with no active filter it is the whole catalog |
| Catalog.Available | class_builder.py:751-756 | the candidates of a section are exactly the catalog entries of that section that run on the allocated equipment and suit the level |
| Catalog.AvailableIsQuery | class_builder.py:751-756 | with non-empty ids, the attempt's candidate list is the same as the catalog query with all three filters |
| Tallies.Bump | class_builder.py:342 | incrementing a count raises that key's count by one and changes no other key; a new key goes to the end; distinct positive keys stay so |
| Tallies.CountEquipmentCounts | class_builder.py:340-342 | counting one exercise adds, for each allowed key, the number of times the exercise lists it, and leaves every other key as it was |
| Tallies.CountEquipmentPositive | class_builder.py:340-342 | after counting one exercise, a key is positive iff it was, or it is allowed and the exercise lists it |
| Tallies.CountExercises | class_builder.py:335-342 | the loop over the exercises adds to each allowed key the number of listings by suitable exercises of the section, and makes a key positive iff it was or some such exercise lists it |
| Tallies.TallyOf | class_builder.py:331-343 | a section's count dictionary is well formed; each allowed key counts the listings by the section's suitable exercises and other keys count 0; it is empty exactly when no allowed equipment is usable |
| Tallies.EmptyIffAllZero | class_builder.py:361-364 | a count dictionary is empty (falsy) exactly when every `get` returns 0 |
| Tallies.MaxIndex | class_builder.py:362 | the entry picked has the largest count, and every entry before it has a strictly smaller one (Python's `max` keeps the first maximum) |
| Tallies.MaxKey | class_builder.py:362 | `max(counts, key=counts.get)` returns the key of the first entry with the largest count; in a well-formed dictionary that count is positive and no key's count exceeds it |
| Sequencer.SectionExercises | class_builder.py:703-707 | a section's list holds exactly the catalog exercises of that section |
| Sequencer.GroupExercises | class_builder.py:702-707 | the grouping loop builds the map defined one exercise at a time by `GroupBySection` |
| Sequencer.GroupBySectionContents | class_builder.py:702-707 | the grouping has a key exactly for each section that occurs in the catalog, mapped to its exercises in catalog order |
| Sequencer.CapableIffUsable | class_builder.py:546-566 | a section is secondary-capable on the grouped catalog iff the secondary equipment is set and some exercise of the section at a suitable level runs on it |
| Sequencer.OptimizeSectionOrder | class_builder.py:539-577 | the result is a permutation of the flexible sections; every non-capable section comes before every capable one; with no secondary equipment the order is unchanged |
| Sequencer.AppendMissing | class_builder.py:572-575 | the final "add missing sections" loop adds nothing when every section is already present |
| Sequencer.OptimizeSectionOrderIsStable | class_builder.py:543-570 | two sections of the same group keep their declaration order |
| Util.Partition | class_builder.py:568-570 | the stable partition behind the section order is a permutation in which the elements failing the test come first |
| Util.PartitionIsStable | class_builder.py:568-570 | each group of that partition keeps the relative order of a duplicate-free input |
| Flow.ScanStepCases | class_builder.py:484-506 | one step of the repair: leaving the current equipment abandons it; a non-abandoned allocation is kept; an abandoned one is replaced by the current equipment when usable, else by allowed usable mat, else kept and no longer abandoned |
| Flow.ScanChoices | class_builder.py:484-506 | a position the scan changed holds a return to equipment used earlier, and the previous position's equipment whenever that is non-empty and usable in the section |
| Flow.ScanRepairs | class_builder.py:484-506 | every changed position holds usable previous equipment or allowed usable mat, and every return left in the output is to mat or is a bounce that neither fix could repair |
| Flow.ScanAbandons | class_builder.py:484-487 | equipment the scan used and then left is in the abandoned set |
| Flow.ScanAbandonedUsed | class_builder.py:487-504 | the abandoned set only holds equipment the scan already used |
| Flow.ScanLinear | class_builder.py:484-506 | on a linear input the scan keeps every allocation and abandons exactly the equipment used before the current one |
| Flow.LinearRepairSound | class_builder.py:477-508 | the repair keeps the first position, a linear input and an input of length at most 1; changes only returns, preferring the previous equipment; and leaves only returns to mat or unrepairable bounces |
| Flow.EnforceLinearFlow | class_builder.py:477-508 | the loop with its `abandoned` set and `current_eq` returns exactly `LinearRepair`, the scan defined one step at a time |
| Flow.CountEquipmentTransitions | class_builder.py:510-518 | the count is the number of neighbouring changes not starting from an empty id, and is smaller than the number of allocations |
| Flow.FirstAppearances | class_builder.py:584-591 | the equipment list of the flow check is duplicate-free, holds exactly the equipment used, and lists it in order of first use |
| Flow.FirstAppearancesSnoc | class_builder.py:587-591 | one more exercise appends its equipment to the list exactly when that equipment was not seen before |
| Flow.LinearChangesCountDistinct | class_builder.py:510-518 | on a linear allocation of non-empty ids the counted transitions are one fewer than the number of distinct equipment |
| Allocator.Primary | class_builder.py:326 | the primary equipment is the first allowed one, or mat when nothing is allowed |
| Allocator.ExerciseCounts | class_builder.py:330-343 | every ordered section has a well-formed tally that counts only allowed equipment; a count is positive iff the equipment is allowed and usable in the section at the level |
| Allocator.DefaultEquipment | class_builder.py:347-364 | the initial cascade in the source's order: stretch with mat exercises gets mat; else usable primary; else usable secondary; else usable mat; else the first key with the largest count; a section with no counts gets the primary; the pick can fill the section and is allowed |
| Allocator.InitialAllocation | class_builder.py:345-364 | one default per ordered section, each one able to fill its section and allowed |
| Allocator.EligibleList | class_builder.py:381-389 | the eligible positions below `n`, strictly increasing: positions other than 0 and stretch whose section has a secondary exercise |
| Allocator.SecondaryEligible | class_builder.py:381-393 | the loop builds `EligibleList` over all sections: strictly increasing, so the `sort()` changes nothing, and exactly the eligible positions |
| Allocator.EligibleListCount | class_builder.py:382-400 | the eligible list's length is the number of eligible positions |
| Allocator.NumSecondary | class_builder.py:395-400 | the run-length draw fails exactly when fewer positions are eligible than the lower bound (4 on a high-variety roll, else 3); otherwise it lies within the randint range |
| Allocator.StartsFrom | class_builder.py:404-405 | the eligible starts are exactly the eligible positions at or after the minimum start |
| Allocator.ChooseStart | class_builder.py:407-417 | the start is an eligible start; with at most two it is the earliest; on an early roll it is in the first half plus one |
| Allocator.ConsecutiveRun | class_builder.py:419-425 | the run starts at the chosen start, holds consecutive eligible positions, and stops where the next position is not eligible |
| Allocator.RunPrefix | class_builder.py:427-434 | the first `min(num_secondary, len(consecutive))` positions of the consecutive run make a valid secondary run from its start, shorter than drawn only where the next position is ineligible |
| Allocator.RunFromStart | class_builder.py:407-434 | the run begins at `ChooseStart` of the eligible starts and the draws, holds consecutive eligible positions, and has the drawn length unless the next position is ineligible |
| Allocator.ChooseSecondaryRun | class_builder.py:377-434 | fails exactly on an empty randint range; no run without usable secondary or on a low roll; otherwise the run is exactly the drawn one (`RunDrawn`): non-empty whenever some start qualifies, from `ChooseStart`, of length `min(num_secondary, len(consecutive))` |
| Allocator.AssignRun | class_builder.py:427-431 | exactly the positions of the run get the secondary equipment |
| Allocator.PostSecondaryEquipment | class_builder.py:439-454 | the post-run cascade in the source's order: allowed usable mat; else usable secondary; else usable primary; else the first key with the largest count; with no counts the old allocation is kept |
| Allocator.ReassignAfter | class_builder.py:435-454 | positions after the run get the post-run cascade and earlier ones are unchanged; fill-ability and allowedness are preserved |
| Allocator.RunUsable | class_builder.py:427-431 | moving the run to the secondary keeps every section fillable with allowed equipment |
| Allocator.RunPlacement | class_builder.py:427-454 | after the run and the post-run pass, run positions hold the secondary, later ones the post-run cascade of their old value, earlier ones are unchanged |
| Allocator.ApplyRun | class_builder.py:427-454 | each position holds the secondary if in the run, the post-run cascade of its old value if after the run, and its old value otherwise; every section can still be filled with allowed equipment |
| Allocator.PlanIs | class_builder.py:345-454 | defaults with the run and the post-run cascade applied are the plan `PlanWith` of that run |
| Allocator.PlanAllocations | class_builder.py:345-454 | the allocation before repair fails exactly on the randint error; otherwise its run is the drawn run (`RunDrawn`), and the allocation is `PlanWith` of it: defaults, the run on the secondary, the post-run cascade after it |
| Allocator.RepairFills | class_builder.py:456-460 | after the repair every section can be filled with allowed equipment, and each return is to mat or an unrepairable bounce of the planned equipment |
| Allocator.AllocateEquipmentBlocks | class_builder.py:307-460 | fails exactly on the randint error; otherwise the result is the linear-flow repair of `PlanWith` of the drawn run (`AllocatedWith`); each allocation can fill its section; each return is to mat or an unrepairable bounce; a linear plan is kept |
| Allocator.RepairKeepsExecutable | class_builder.py:494-504 | the linear-flow repair never leaves a section without a usable exercise and never assigns equipment outside the allowed list |
| Plans.Entry | class_builder.py:811-821 | a placed exercise keeps id, name, reps, duration, props and box; runs on the section's equipment; has no spring setting on mat and the exercise's otherwise; keeps exactly the first two variations |
| Selection.Shuffle | class_builder.py:759 | the shuffle oracle returns a permutation of its input |
| Selection.ShuffleReachesAll | class_builder.py:759 | every permutation of the candidates is the shuffle of some draws |
| Selection.Arrange | class_builder.py:758-766 | the candidate order is a permutation of the candidates, with every same-spring candidate before every candidate with a different spring |
| Selection.ArrangeReachesAll | class_builder.py:758-766 | every same-spring-first permutation is the candidate order for some draws |
| Selection.LastSpring | class_builder.py:798-806 | the tracked last spring is never the empty setting |
| Selection.SpringChanges | class_builder.py:778-792 | there are at most as many spring transitions as exercises, and none with at most one exercise |
| Selection.FlowOf | class_builder.py:794-797 | the equipment flow ends with the current equipment and never repeats an entry twice in a row |
| Selection.InitialTracks | class_builder.py:736-738 | the state before the first section is the state after no exercise |
| Selection.TakeKeepsTracking | class_builder.py:777-808 | taking one exercise with the source's updates keeps the counter, flow, current equipment and last spring in step with the emitted exercises |
| Selection.Consider | class_builder.py:777-809 | a fitting candidate is skipped exactly when it is a spring change on unchanged equipment at the limit in a section that already has an exercise; otherwise the new state tracks the exercises with it appended, the counter being the spring changes capped at the limit |
| Selection.SkipIsCapped | class_builder.py:786-789 | the tracker's skip test agrees with `Capped` on the exercises emitted so far |
| Selection.GreedyKeeps | class_builder.py:769-822 | the selection rule never drops an exercise already selected |
| Selection.GreedyStep | class_builder.py:773-822 | one candidate of the rule: stop when the time is used up and the section has an exercise; take it when the section is empty or it fits and is not capped; otherwise pass over it |
| Selection.GreedyFirst | class_builder.py:773-777 | the rule selects nothing exactly when there are no candidates, and always takes the first candidate |
| Selection.GreedyTakesAll | class_builder.py:773-822 | when all candidates fit in the time and the limit cannot be reached, every candidate is taken in order |
| Selection.TryCandidate | class_builder.py:777-822 | one pass of the loop body keeps the selection in step with the rule, the tracker and the remaining time |
| Selection.SelectExercises | class_builder.py:768-822 | the loop selects exactly what the rule `Greedy` selects from the candidates in their order: the first always, later ones while time remains if they fit and are not capped; empty iff no candidates; within budget with more than one; the tracker follows every exercise emitted |
| Validation.ValidateEquipmentFlow | class_builder.py:579-596 | the flow is reported valid iff the exercises' equipment is linear; the returned list is the first appearances up to where the walk stopped; it stops at the first return |
| Validation.EmptyPositions | class_builder.py:606-608 | the positions of the empty sections, in increasing order |
| Validation.EmptySections | class_builder.py:606-609 | the list is empty iff no section is empty, and holds only empty-section violations |
| Validation.EmptySectionsPositions | class_builder.py:606-609 | one violation per empty section, in order: the k-th names the k-th empty section |
| Validation.EmptySectionsStep | class_builder.py:607-609 | one more section adds its violation exactly when it is empty |
| Validation.UsedEquipment | class_builder.py:615-620 | the used equipment is exactly the non-empty equipment ids of the plan's exercises |
| Validation.ViolationsOf | class_builder.py:604-623 | there is no violation iff no section is empty, the transitions are within the limit and at most `max_equipment` equipment types are used; there are at most two more violations than sections |
| Validation.CollectUsedEquipment | class_builder.py:615-620 | the nested loop collects exactly the used equipment |
| Validation.ValidateClass | class_builder.py:598-625 | the violations are those listed, in the source's order, and the plan is valid iff there are none |
| Pruning.Renumbered | class_builder.py:680-682 | renumbering sets `order` to 1, 2, ... and changes nothing else |
| Pruning.Pruned | class_builder.py:677-683 | the pruned plan keeps exactly the sections with exercises, in their order, numbered 1..k, and changes no other field |
| Pruning.PruneEmptySections | class_builder.py:677-683 | the filter-and-renumber loop computes `Pruned` |
| Pruning.PrunedExercises | class_builder.py:679-682 | pruning keeps every exercise of the plan, in order |
| Pruning.PrunedViolations | class_builder.py:677-682 | pruning removes exactly the empty-section violations and keeps the others |
| Pruning.PrunedLimits | class_builder.py:612-623 | pruning changes neither the transition nor the equipment-count violation |
| Pruning.PrunedNoEmpty | class_builder.py:606-609 | a pruned plan has no empty-section violation |
| Pruning.PrunedIdempotent | class_builder.py:677-683 | filtering and renumbering twice gives the same plan as once |
| Pruning.PrunedIdentity | class_builder.py:677-683 | a plan with no empty section, numbered from 1, is unchanged by pruning |
| Generator.OrderSections | class_builder.py:709-713 | footwork first, stretch last, and a permutation of the flexible sections between them |
| Generator.OrderedSections | class_builder.py:702-713 | the attempt's grouping and ordering produce `OrderSections` of the grouped catalog, footwork first |
| Generator.TypicalTotal | class_builder.py:721 | no section's typical minutes exceed the total |
| Generator.FootworkFirst | class_builder.py:721-722 | with footwork first the typical total is positive, so the time scale is defined |
| Generator.AvailableIffUsable | class_builder.py:751-756 | a section has no candidate on its equipment exactly when that equipment is not usable there |
| Generator.SectionFilledBy | class_builder.py:769-831 | a section holding the rule's selection from the arranged candidates is `SectionFilled`: id, name, `idx + 1`, exactly the `Greedy` selection, only catalog candidates, empty iff none, within budget |
| Generator.FillSection | class_builder.py:740-831 | one round of the fill loop builds the section the selection rule gives on the arranged candidates, with its share of the time, and keeps the tracked state in step |
| Generator.FillSections | class_builder.py:736-832 | every ordered section is filled in order on its allocated equipment with its time share; the counter, flow and total follow all exercises emitted |
| Generator.BuildPlan | class_builder.py:715-834 | the attempt fails exactly on the allocation's randint error; otherwise its plan is `Generated`: allocations that are the repaired plan of the drawn secondary run, sections filled by the selection rule, the request's settings and the tracked counters |
| Generator.GenerateClassAttempt | class_builder.py:685-834 | the attempt orders the sections as `OrderSections` of the grouped catalog, then behaves as `BuildPlan` |
| Generator.SectionEquipment | class_builder.py:747-756 | every exercise of a generated section runs on the section's allocated equipment, which is allowed |
| Generator.EmptySectionIffNothingUsable | class_builder.py:747-775 | a generated section is empty exactly when no allowed equipment has a suitable exercise of that section |
| Generator.TransitionsWithinLimit | class_builder.py:788-792 | with a non-negative limit the counted transitions never exceed it |
| Generator.UsedEquipmentAllowed | class_builder.py:615-620 | a generated plan uses only allowed equipment |
| Generator.ValidWhenEverySectionUsable | class_builder.py:598-625 | with a non-negative limit, one to three allowed equipment types and some allowed equipment usable in every section, a generated plan has no violation |
| Generator.RequestedEquipment | class_builder.py:645-646 | the request's equipment list, or reformer only when none is given |
| Generator.AllGeneratedSnoc | class_builder.py:661-664 | appending the plan generated from the next draws keeps every plan generated from its own draws |
| Generator.Retry | class_builder.py:662-667 | one retry fails exactly on the randint error; otherwise it appends a generated plan and reports its violation count and validity |
| Generator.FirstFewestSnoc | class_builder.py:672-675 | a new plan becomes the fallback only with strictly fewer violations, so the earliest plan with the fewest is kept |
| Generator.KeepFewest | class_builder.py:672-675 | the fallback bookkeeping keeps the earliest plan with the fewest violations and its count |
| Generator.RetryAttempts | class_builder.py:657-683 | returns the first valid plan; else, after every draw, the earliest plan with the fewest violations, pruned; every earlier plan was invalid; fails on the first allocation error or when there is no attempt |
| Generator.GenerateClass | class_builder.py:627-683 | fills in the defaults (reformer, the level's transition limit, three equipment types) and behaves as `RetryAttempts` on the section order of the grouped catalog |

## Left out

- Floating point. Time scale, budget and minutes are exact reals, and the `round(section_minutes, 1)` of `allocated_minutes` is not modelled.
- `int(n_sections * 0.3)` is written as `n * 3 / 10`. The two agree for the section counts that occur.
- Violation messages are `Violation` values that carry the numbers the messages print, not the strings.
- The contents of `EXERCISES` and `EQUIPMENT_TYPES` are not transcribed. The catalog is a parameter of every operation.
- The `ClassBuilder` object itself is not modelled: its only field is that read-only catalog.
- The query results of `get_exercises` are `Exercise` values rather than dictionaries.
- `app.py` (HTTP routes and request parsing) and `database.py` (SQLite persistence) are not part of this model.
- `random` itself: every draw is an explicit parameter. The second key of `spring_priority` is a random number, so it only reorders exercises within each spring group; the shuffle draws already cover that reordering.
- Parameters the source ignores are dropped: `max_transitions` of `_allocate_equipment_blocks`, `max_equipment` of `_generate_class_attempt`, and `allowed_equipment` and `level` of `_validate_class`.
- `secondary_eligible.sort()` is not modelled because the list is built in increasing order (`Allocator.SecondaryEligible` proves it). The guard `section_idx < len(allocations)` is not modelled because it always holds.
- The count dictionaries of `_allocate_equipment_blocks` (lines 331-343) are built by recursive functions over an insertion-ordered association list rather than by a loop over a mutable dictionary.
- Allocator.ChooseSecondaryRun: a `randint` with an empty range raises `ValueError` in the source. Here it is a `Failure`, which `GenerateClass` returns as `AllocationFailed` instead of raising.
- Generator.GenerateClass: `max_retries` is the number of draws supplied. With no attempt the source reaches `class_plan` unbound and raises; here it returns `Failure(NoAttempts)`.
- Generator.GenerateClass: the source recomputes the grouping and section order in every attempt. That order depends only on the catalog, the allowed equipment and the level, so the model computes it once.
- Flow.EnforceLinearFlow: the output is not promised to be linear. The source's fallback to mat does not check whether mat was already left, so a repair can itself return to mat. The contract states what does hold: every remaining return is to mat or is an unrepairable bounce.
- Selection.SelectExercises: the section's time budget is a real. The source's `remaining_time` is a float.
