/**
 * Class generation: one attempt (section order, equipment allocation, the
 * per-section fill) and the retry loop that keeps the first valid plan or,
 * failing that, the plan with the fewest violations without its empty sections.
 */
module Generator {
  import opened Util
  import opened Catalog
  import opened Tallies
  import opened Sequencer
  import opened Allocator
  import opened Plans
  import opened Selection
  import opened Flow
  import opened Validation
  import opened Pruning

  /** The random draws of one attempt: the allocation's, and one shuffle per section. */
  datatype AttemptDraws = AttemptDraws(allocation: AllocationDraws, shuffles: seq<seq<nat>>)

  /** Footwork first, the reordered flexible sections, stretch last. */
  function OrderSections(groups: map<string, seq<Exercise>>, allowed: seq<string>, level: string): (ordered: seq<Section>)
    ensures |ordered| == |FlexibleSections| + 2
    ensures ordered[0] == FixedFirst && ordered[|ordered| - 1] == FixedLast
    ensures multiset(ordered[1..|ordered| - 1]) == multiset(FlexibleSections)
  {
    var middle := OptimizeSectionOrder(FlexibleSections, allowed, groups, level);
    Framed(FixedFirst, middle, FixedLast);
    [FixedFirst] + middle + [FixedLast]
  }

  lemma Framed(first: Section, middle: seq<Section>, last: Section)
    ensures var s := [first] + middle + [last];
            |s| == |middle| + 2 && s[0] == first && s[|s| - 1] == last && s[1..|s| - 1] == middle
  {
    var s := [first] + middle + [last];
    assert s[1..|s| - 1] == middle by {
      forall k | 0 <= k < |middle| ensures s[1..|s| - 1][k] == middle[k] {
        assert s[k + 1] == middle[k];
      }
    }
  }

  /** Sum of the typical minutes. */
  function TypicalTotal(sections: seq<Section>): (total: nat)
    ensures forall i :: 0 <= i < |sections| ==> sections[i].typicalMinutes <= total
  {
    if sections == [] then 0
    else TypicalTotal(sections[..|sections| - 1]) + sections[|sections| - 1].typicalMinutes
  }

  /** Appending a section appends its exercises. */
  lemma AllExercisesSnoc(sections: seq<PlanSection>, s: PlanSection)
    ensures AllExercises(sections + [s]) == AllExercises(sections) + s.exercises
  {
    assert (sections + [s])[..|sections|] == sections;
  }

  /** A section's share of the class: its typical minutes scaled to the class duration. */
  function SectionMinutes(typicalMinutes: nat, durationMinutes: int, totalTypical: nat): real
    requires totalTypical > 0
  {
    typicalMinutes as real * (durationMinutes as real / totalTypical as real)
  }

  /** Seconds of exercise a section of `minutes` may hold, scaled by the level's multiplier. */
  function SectionBudget(minutes: real, multiplier: real): real
  {
    minutes * 60.0 * multiplier
  }

  /** Catalog exercises placed on `equipment`, in order. */
  function Entries(chosen: seq<Exercise>, equipment: string): (r: seq<PlanExercise>)
    ensures |r| == |chosen| && forall k :: 0 <= k < |chosen| ==> r[k] == Entry(chosen[k], equipment)
  {
    seq(|chosen|, k requires 0 <= k < |chosen| => Entry(chosen[k], equipment))
  }

  /**
   * Section `ps` was filled for `sec` on `equipment` with the catalog exercises
   * `chosen`, after the class's `emitted` exercises and with the shuffle draws
   * `picks`: it keeps the section's id and name, is numbered `idx + 1`, holds
   * what the selection rule takes from the arranged candidates, only
   * exercises of the section that suit the level and run on the equipment,
   * is empty exactly when there is none, and keeps to its time budget once
   * it has more than one.
   */
  ghost predicate SectionFilled(catalog: seq<Exercise>, level: string, multiplier: real, maxTransitions: int,
                                sec: Section, equipment: string, idx: int, picks: seq<nat>,
                                emitted: seq<PlanExercise>, ps: PlanSection, chosen: seq<Exercise>)
  {
    && ps.id == sec.id && ps.name == sec.name && ps.order == idx + 1
    && ps.exercises
         == Greedy(emitted, Arrange(Available(catalog, sec.id, equipment, level), picks, equipment, LastSpring(emitted)),
                   equipment, SectionBudget(ps.allocatedMinutes, multiplier), maxTransitions, [])
    && ps.exercises == Entries(chosen, equipment)
    && (forall ex :: ex in chosen ==> ex in Available(catalog, sec.id, equipment, level))
    && (chosen == [] <==> Available(catalog, sec.id, equipment, level) == [])
    && (|chosen| > 1 ==> TotalSeconds(ps.exercises) <= SectionBudget(ps.allocatedMinutes, multiplier))
  }

  /** Nothing on the equipment suits the section exactly when the equipment is not usable there. */
  lemma AvailableIffUsable(catalog: seq<Exercise>, sectionId: string, equipment: string, level: string)
    ensures Available(catalog, sectionId, equipment, level) == [] <==> !Usable(catalog, sectionId, level, equipment)
  {
    var r := Available(catalog, sectionId, equipment, level);
    if r != [] {
      assert r[0] in r;
    }
  }

  /**
   * The fill loop of `_generate_class_attempt`: for each section in order, the
   * candidates on its allocated equipment are arranged and selected, and the
   * section is appended with its share of the class time. `chosen` (ghost)
   * holds the catalog exercises placed in each section.
   */
  method FillSections(catalog: seq<Exercise>, ordered: seq<Section>, allocations: seq<string>, level: string,
                      config: LevelConfig, durationMinutes: int, maxTransitions: int, shuffles: seq<seq<nat>>)
    returns (sections: seq<PlanSection>, st: Tracker, totalExercises: int, ghost chosen: seq<seq<Exercise>>)
    requires |allocations| == |ordered| && TypicalTotal(ordered) > 0
    ensures |sections| == |ordered| == |chosen|
    ensures Filled(catalog, level, config.exerciseCountMultiplier, maxTransitions, durationMinutes, ordered,
                   allocations, shuffles, sections, chosen)
    ensures Tracks(st, AllExercises(sections), maxTransitions)
    ensures totalExercises == |AllExercises(sections)|
  {
    var totalTypical := TypicalTotal(ordered);
    sections, st, totalExercises, chosen := [], Initial, 0, [];
    InitialTracks(maxTransitions);
    var idx := 0;
    while idx < |ordered|
      invariant 0 <= idx <= |ordered| && |sections| == idx == |chosen|
      invariant Filled(catalog, level, config.exerciseCountMultiplier, maxTransitions, durationMinutes, ordered,
                       allocations, shuffles, sections, chosen)
      invariant Tracks(st, AllExercises(sections), maxTransitions)
      invariant totalExercises == |AllExercises(sections)|
    {
      var ps, next, from := FillSection(catalog, ordered[idx], allocations[idx], idx, level,
                                        config.exerciseCountMultiplier,
                                        SectionMinutes(ordered[idx].typicalMinutes, durationMinutes, totalTypical),
                                        PicksAt(shuffles, idx), st, maxTransitions, AllExercises(sections));
      AllExercisesSnoc(sections, ps);
      FilledSnoc(catalog, level, config.exerciseCountMultiplier, maxTransitions, durationMinutes, ordered, allocations,
                 shuffles, sections, chosen, ps, from);
      sections := sections + [ps];
      chosen := chosen + [from];
      st := next;
      totalExercises := totalExercises + |ps.exercises|;
      idx := idx + 1;
    }
  }

  /** The shuffle draws of section `i`; none once the supplied draws run out. */
  function PicksAt(shuffles: seq<seq<nat>>, i: nat): seq<nat>
  {
    if i < |shuffles| then shuffles[i] else []
  }

  /**
   * The first `|sections|` sections of `ordered` are filled: each on its
   * allocated equipment with its own shuffle draws after the exercises of the
   * sections before it, numbered in order, with its share of the class time.
   */
  ghost predicate Filled(catalog: seq<Exercise>, level: string, multiplier: real, maxTransitions: int,
                         durationMinutes: int, ordered: seq<Section>, allocations: seq<string>,
                         shuffles: seq<seq<nat>>, sections: seq<PlanSection>, chosen: seq<seq<Exercise>>)
  {
    && |sections| == |chosen| <= |ordered| == |allocations|
    && TypicalTotal(ordered) > 0
    && (forall i {:trigger SectionFilled(catalog, level, multiplier, maxTransitions, ordered[i], allocations[i], i,
                                         PicksAt(shuffles, i), AllExercises(sections[..i]), sections[i], chosen[i])}
          :: 0 <= i < |sections| ==>
               SectionFilled(catalog, level, multiplier, maxTransitions, ordered[i], allocations[i], i,
                             PicksAt(shuffles, i), AllExercises(sections[..i]), sections[i], chosen[i]))
    && forall i :: 0 <= i < |sections| ==>
         sections[i].allocatedMinutes == SectionMinutes(ordered[i].typicalMinutes, durationMinutes, TypicalTotal(ordered))
  }

  lemma FilledSnoc(catalog: seq<Exercise>, level: string, multiplier: real, maxTransitions: int, durationMinutes: int,
                   ordered: seq<Section>, allocations: seq<string>, shuffles: seq<seq<nat>>,
                   sections: seq<PlanSection>, chosen: seq<seq<Exercise>>, ps: PlanSection, from: seq<Exercise>)
    requires Filled(catalog, level, multiplier, maxTransitions, durationMinutes, ordered, allocations, shuffles,
                    sections, chosen)
    requires |sections| < |ordered|
    requires SectionFilled(catalog, level, multiplier, maxTransitions, ordered[|sections|], allocations[|sections|],
                           |sections|, PicksAt(shuffles, |sections|), AllExercises(sections), ps, from)
    requires ps.allocatedMinutes
               == SectionMinutes(ordered[|sections|].typicalMinutes, durationMinutes, TypicalTotal(ordered))
    ensures Filled(catalog, level, multiplier, maxTransitions, durationMinutes, ordered, allocations, shuffles,
                   sections + [ps], chosen + [from])
  {
    var sections', chosen' := sections + [ps], chosen + [from];
    forall i | 0 <= i < |sections'|
      ensures SectionFilled(catalog, level, multiplier, maxTransitions, ordered[i], allocations[i], i,
                            PicksAt(shuffles, i), AllExercises(sections'[..i]), sections'[i], chosen'[i])
      ensures sections'[i].allocatedMinutes
                == SectionMinutes(ordered[i].typicalMinutes, durationMinutes, TypicalTotal(ordered))
    {
      PrefixOfSnoc(sections, ps, i);
      if i < |sections| {
        assert sections'[i] == sections[i] && chosen'[i] == chosen[i];
      } else {
        assert sections[..i] == sections;
      }
    }
  }

  /** One round of the fill loop: arrange the candidates of one section, select from them, and build the section. */
  method FillSection(catalog: seq<Exercise>, section: Section, equipment: string, idx: int, level: string,
                     multiplier: real, minutes: real, picks: seq<nat>, st: Tracker, maxTransitions: int,
                     ghost emitted: seq<PlanExercise>)
    returns (ps: PlanSection, next: Tracker, ghost chosen: seq<Exercise>)
    requires Tracks(st, emitted, maxTransitions)
    ensures SectionFilled(catalog, level, multiplier, maxTransitions, section, equipment, idx, picks, emitted, ps,
                          chosen)
    ensures ps.allocatedMinutes == minutes
    ensures Tracks(next, emitted + ps.exercises, maxTransitions)
  {
    var sectionSeconds := SectionBudget(minutes, multiplier);
    var available := Available(catalog, section.id, equipment, level);
    var candidates := Arrange(available, picks, equipment, st.lastSpring);
    var selected;
    ghost var taken;
    selected, next, taken := SelectExercises(st, candidates, equipment, sectionSeconds, maxTransitions, emitted);
    ps := PlanSection(section.id, section.name, idx + 1, minutes, selected);
    chosen := SectionFilledBy(catalog, level, multiplier, maxTransitions, section, equipment, idx, picks, emitted, ps,
                              available, candidates, taken);
  }

  /** What one round of the fill loop establishes about the section it appends. */
  lemma SectionFilledBy(catalog: seq<Exercise>, level: string, multiplier: real, maxTransitions: int, sec: Section,
                        equipment: string, idx: int, picks: seq<nat>, emitted: seq<PlanExercise>, ps: PlanSection,
                        available: seq<Exercise>, candidates: seq<Exercise>, taken: seq<nat>)
    returns (chosen: seq<Exercise>)
    requires available == Available(catalog, sec.id, equipment, level)
    requires candidates == Arrange(available, picks, equipment, LastSpring(emitted))
    requires ps.id == sec.id && ps.name == sec.name && ps.order == idx + 1
    requires ps.exercises
               == Greedy(emitted, candidates, equipment, SectionBudget(ps.allocatedMinutes, multiplier),
                         maxTransitions, [])
    requires TakenFrom(ps.exercises, taken, candidates, equipment, |candidates|)
    requires ps.exercises == [] <==> candidates == []
    requires |ps.exercises| > 1 ==> TotalSeconds(ps.exercises) <= SectionBudget(ps.allocatedMinutes, multiplier)
    ensures SectionFilled(catalog, level, multiplier, maxTransitions, sec, equipment, idx, picks, emitted, ps, chosen)
  {
    chosen := ChosenEntries(catalog, level, sec, equipment, ps, available, candidates, taken);
  }

  /** The catalog exercises behind the positions `taken` of the candidates, and what they are. */
  lemma ChosenEntries(catalog: seq<Exercise>, level: string, sec: Section, equipment: string,
                      ps: PlanSection, available: seq<Exercise>, candidates: seq<Exercise>, taken: seq<nat>)
    returns (chosen: seq<Exercise>)
    requires available == Available(catalog, sec.id, equipment, level)
    requires multiset(candidates) == multiset(available)
    requires TakenFrom(ps.exercises, taken, candidates, equipment, |candidates|)
    requires ps.exercises == [] <==> candidates == []
    ensures ps.exercises == Entries(chosen, equipment)
    ensures forall ex :: ex in chosen ==> ex in available
    ensures chosen == [] <==> available == []
  {
    chosen := seq(|taken|, k requires 0 <= k < |taken| && taken[k] < |candidates| => candidates[taken[k]]);
    assert candidates == [] <==> available == [] by {
      assert |candidates| == |multiset(candidates)| == |multiset(available)| == |available|;
    }
    forall ex | ex in chosen ensures ex in available {
      assert ex in multiset(candidates);
    }
  }

  /** The allocation of an attempt fails: `randint` is asked for a run longer than the eligible sections allow. */
  ghost predicate AllocationFails(catalog: seq<Exercise>, ordered: seq<Section>, allowed: seq<string>, level: string,
                                  draws: AllocationDraws)
  {
    && Active(Secondary(allowed)) && draws.patternRoll > 0.10
    && 0 < EligibleCount(ordered, ExerciseCounts(catalog, ordered, level, allowed), allowed[1])
         < RunLow(draws.patternRoll)
  }

  /**
   * What an attempt drew and placed: the secondary run the allocation drew,
   * the equipment allocated to each section, and the catalog exercises placed
   * in each section.
   */
  datatype Trace = Trace(run: seq<nat>, allocations: seq<string>, chosen: seq<seq<Exercise>>)

  /**
   * `plan` is what one attempt with the random draws `draws` builds, as
   * `trace` records: it is assembled as below from the equipment allocations
   * that the allocation draws produce for the drawn run.
   */
  ghost predicate Generated(catalog: seq<Exercise>, durationMinutes: int, level: string, config: LevelConfig,
                            allowed: seq<string>, maxTransitions: int, ordered: seq<Section>, draws: AttemptDraws,
                            plan: ClassPlan, trace: Trace)
  {
    && AllocatedWith(catalog, ordered, allowed, level, draws.allocation, trace.run, trace.allocations)
    && Assembled(catalog, durationMinutes, level, config, allowed, maxTransitions, ordered, draws, plan, trace)
  }

  /**
   * `plan` is assembled from the allocations and placed exercises of `trace`:
   * the request's settings, the ordered sections filled on the allocations
   * with the shuffle draws, every allocation suited to its section, a return
   * to abandoned equipment only to mat or where neither the previous
   * equipment nor mat has an exercise, and the transition counter, flow and
   * total that the fill loop tracked over all emitted exercises.
   */
  ghost predicate Assembled(catalog: seq<Exercise>, durationMinutes: int, level: string, config: LevelConfig,
                            allowed: seq<string>, maxTransitions: int, ordered: seq<Section>, draws: AttemptDraws,
                            plan: ClassPlan, trace: Trace)
  {
    && plan.durationMinutes == durationMinutes && plan.level == level && plan.levelName == config.name
    && plan.equipment == allowed && plan.maxTransitions == maxTransitions
    && |plan.sections| == |ordered| == |trace.allocations|
    && Filled(catalog, level, config.exerciseCountMultiplier, maxTransitions, durationMinutes, ordered, trace.allocations,
              draws.shuffles, plan.sections, trace.chosen)
    && (forall i :: 0 <= i < |ordered| ==> Fills(catalog, ordered[i].id, level, allowed, trace.allocations[i]))
    && (allowed != [] ==> forall i :: 0 <= i < |ordered| ==> trace.allocations[i] in allowed)
    && (forall i :: 0 < i < |ordered| && ReturnsAt(trace.allocations, i) ==>
          || trace.allocations[i] == "mat"
          || (&& !(trace.allocations[i - 1] != "" && trace.allocations[i - 1] in allowed
                   && Usable(catalog, ordered[i].id, level, trace.allocations[i - 1]))
              && !("mat" in allowed && Usable(catalog, ordered[i].id, level, "mat"))))
    && plan.transitions == Min(SpringChanges(AllExercises(plan.sections)), Cap(maxTransitions))
    && plan.equipmentFlow == FlowOf(AllExercises(plan.sections))
    && plan.totalExercises == |AllExercises(plan.sections)|
  }

  /**
   * `_generate_class_attempt`: group the catalog, order the sections, allocate
   * equipment blocks, then fill every section. The allocation's `randint`
   * error is the only way an attempt fails.
   */
  method GenerateClassAttempt(catalog: seq<Exercise>, durationMinutes: int, level: string, config: LevelConfig,
                              allowed: seq<string>, maxTransitions: int, draws: AttemptDraws)
    returns (r: Result<ClassPlan, AllocError>, ghost ordered: seq<Section>, ghost trace: Trace)
    ensures ordered == OrderSections(GroupBySection(catalog), allowed, level)
    ensures Attempted(catalog, durationMinutes, level, config, allowed, maxTransitions, draws, ordered, r, trace)
  {
    var sectionOrder := OrderedSections(catalog, allowed, level);
    ordered := sectionOrder;
    r, trace := BuildPlan(catalog, sectionOrder, durationMinutes, level, config, allowed, maxTransitions, draws);
  }

  /** The attempt's grouping and section order: footwork first, the reordered middle, stretch last. */
  method OrderedSections(catalog: seq<Exercise>, allowed: seq<string>, level: string) returns (ordered: seq<Section>)
    ensures ordered == OrderSections(GroupBySection(catalog), allowed, level)
    ensures |ordered| > 0 && ordered[0] == FixedFirst
  {
    var groups := GroupExercises(catalog);
    ordered := OrderSections(groups, allowed, level);
  }

  /** With footwork first the typical minutes add up to a positive total, so the time scale is defined. */
  lemma FootworkFirst(ordered: seq<Section>)
    requires |ordered| > 0 && ordered[0] == FixedFirst
    ensures TypicalTotal(ordered) > 0
  {
    assert ordered[0].typicalMinutes <= TypicalTotal(ordered);
  }

  /** The outcome of an attempt on `ordered`: it fails exactly on the allocation error, else its plan is generated. */
  ghost predicate Attempted(catalog: seq<Exercise>, durationMinutes: int, level: string, config: LevelConfig,
                            allowed: seq<string>, maxTransitions: int, draws: AttemptDraws, ordered: seq<Section>,
                            r: Result<ClassPlan, AllocError>, trace: Trace)
  {
    && (r.Failure? <==> AllocationFails(catalog, ordered, allowed, level, draws.allocation))
    && (r.Success? ==>
          Generated(catalog, durationMinutes, level, config, allowed, maxTransitions, ordered, draws, r.value, trace))
  }

  /** The attempt once the sections are ordered: allocate the equipment blocks, then fill the sections. */
  method BuildPlan(catalog: seq<Exercise>, ordered: seq<Section>, durationMinutes: int, level: string,
                   config: LevelConfig, allowed: seq<string>, maxTransitions: int, draws: AttemptDraws)
    returns (r: Result<ClassPlan, AllocError>, ghost trace: Trace)
    requires |ordered| > 0 && ordered[0] == FixedFirst
    ensures Attempted(catalog, durationMinutes, level, config, allowed, maxTransitions, draws, ordered, r, trace)
  {
    var blocks;
    ghost var planned, run;
    blocks, planned, run := AllocateEquipmentBlocks(catalog, ordered, allowed, level, draws.allocation);
    if blocks.Failure? {
      return Failure(blocks.error), Trace(run, [], []);
    }
    FootworkFirst(ordered);
    var sections, st, totalExercises;
    ghost var chosen;
    sections, st, totalExercises, chosen :=
      FillSections(catalog, ordered, blocks.value, level, config, durationMinutes, maxTransitions, draws.shuffles);
    trace := Trace(run, blocks.value, chosen);
    r := Success(ClassPlan(durationMinutes, level, config.name, allowed, sections, totalExercises, st.flow,
                           st.transitions, maxTransitions));
  }

  /** Every exercise of a generated section runs on the section's allocated equipment, which the class allows. */
  lemma SectionEquipment(catalog: seq<Exercise>, durationMinutes: int, level: string, config: LevelConfig,
                         allowed: seq<string>, maxTransitions: int, ordered: seq<Section>, draws: AttemptDraws,
                         plan: ClassPlan, trace: Trace, i: nat, k: nat)
    requires Assembled(catalog, durationMinutes, level, config, allowed, maxTransitions, ordered, draws, plan, trace)
    requires i < |plan.sections| && k < |plan.sections[i].exercises|
    ensures plan.sections[i].exercises[k].equipment == trace.allocations[i]
    ensures allowed != [] ==> plan.sections[i].exercises[k].equipment in allowed
  {
    assert SectionFilled(catalog, level, config.exerciseCountMultiplier, maxTransitions, ordered[i], trace.allocations[i], i,
                         PicksAt(draws.shuffles, i), AllExercises(plan.sections[..i]), plan.sections[i], trace.chosen[i]);
  }

  /**
   * A generated section is empty exactly when none of the allowed equipment has
   * an exercise of that section at the class level.
   */
  lemma EmptySectionIffNothingUsable(catalog: seq<Exercise>, durationMinutes: int, level: string,
                                     config: LevelConfig, allowed: seq<string>, maxTransitions: int,
                                     ordered: seq<Section>, draws: AttemptDraws, plan: ClassPlan,
                                     trace: Trace, i: nat)
    requires Assembled(catalog, durationMinutes, level, config, allowed, maxTransitions, ordered, draws, plan, trace)
    requires allowed != [] && i < |plan.sections|
    ensures plan.sections[i].exercises == [] <==>
              forall e :: e in allowed ==>
                !Usable(catalog, ordered[i].id, level, e)
  {
    assert SectionFilled(catalog, level, config.exerciseCountMultiplier, maxTransitions, ordered[i], trace.allocations[i], i,
                         PicksAt(draws.shuffles, i), AllExercises(plan.sections[..i]), plan.sections[i], trace.chosen[i]);
    assert Fills(catalog, ordered[i].id, level, allowed, trace.allocations[i]);
    AvailableIffUsable(catalog, ordered[i].id, trace.allocations[i], level);
  }

  /** With a non-negative limit the counted transitions never exceed it. */
  lemma TransitionsWithinLimit(catalog: seq<Exercise>, durationMinutes: int, level: string, config: LevelConfig,
                               allowed: seq<string>, maxTransitions: int, ordered: seq<Section>, draws: AttemptDraws,
                               plan: ClassPlan, trace: Trace)
    requires Assembled(catalog, durationMinutes, level, config, allowed, maxTransitions, ordered, draws, plan, trace)
    requires maxTransitions >= 0
    ensures plan.transitions <= plan.maxTransitions
  {
    assert plan.transitions == Min(SpringChanges(AllExercises(plan.sections)), Cap(maxTransitions));
    assert plan.maxTransitions == maxTransitions;
  }

  /**
   * The end-to-end promise of an attempt: with a non-negative transition
   * limit, at most three allowed equipment types, and some allowed equipment
   * usable in every section, the plan has no violation at all.
   */
  lemma ValidWhenEverySectionUsable(catalog: seq<Exercise>, durationMinutes: int, level: string,
                                    config: LevelConfig, allowed: seq<string>, maxTransitions: int,
                                    ordered: seq<Section>, draws: AttemptDraws, plan: ClassPlan,
                                    trace: Trace)
    requires Assembled(catalog, durationMinutes, level, config, allowed, maxTransitions, ordered, draws, plan, trace)
    requires maxTransitions >= 0 && allowed != [] && |allowed| <= MaxEquipment
    requires forall i :: 0 <= i < |ordered| ==> exists e :: e in allowed && Usable(catalog, ordered[i].id, level, e)
    ensures ViolationsOf(plan, MaxEquipment) == []
  {
    forall i | 0 <= i < |plan.sections| ensures plan.sections[i].exercises != [] {
      EmptySectionIffNothingUsable(catalog, durationMinutes, level, config, allowed, maxTransitions, ordered, draws,
                                   plan, trace, i);
    }
    UsedEquipmentAllowed(catalog, durationMinutes, level, config, allowed, maxTransitions, ordered, draws, plan, trace);
    SubsetCardinality(UsedEquipment(plan.sections), set x | x in allowed);
    ElementCount(allowed);
    TransitionsWithinLimit(catalog, durationMinutes, level, config, allowed, maxTransitions, ordered, draws, plan, trace);
  }

  /** With some equipment allowed, a generated plan uses only allowed equipment. */
  lemma UsedEquipmentAllowed(catalog: seq<Exercise>, durationMinutes: int, level: string, config: LevelConfig,
                             allowed: seq<string>, maxTransitions: int, ordered: seq<Section>, draws: AttemptDraws,
                             plan: ClassPlan, trace: Trace)
    requires Assembled(catalog, durationMinutes, level, config, allowed, maxTransitions, ordered, draws, plan, trace)
    requires allowed != []
    ensures UsedEquipment(plan.sections) <= set x | x in allowed
  {
    forall e | e in UsedEquipment(plan.sections) ensures e in allowed {
      var es := AllExercises(plan.sections);
      var j :| 0 <= j < |es| && EquipmentOf(es)[j] == e;
      InSomeSection(plan.sections, es[j]);
      var i :| 0 <= i < |plan.sections| && es[j] in plan.sections[i].exercises;
      var k :| 0 <= k < |plan.sections[i].exercises| && plan.sections[i].exercises[k] == es[j];
      SectionEquipment(catalog, durationMinutes, level, config, allowed, maxTransitions, ordered, draws, plan, trace, i, k);
    }
  }

  /** Why `generate_class` produces no plan. */
  datatype GenerateError =
    | AllocationFailed(error: AllocError)   // an attempt's allocation raised
    | NoAttempts                            // no attempt was allowed, so there is no plan to return

  /** `generate_class` allows at most three equipment types in a class. */
  const MaxEquipment := 3

  /** The equipment the request allows; reformer only when none is given. */
  function RequestedEquipment(allowedEquipment: Option<seq<string>>): (allowed: seq<string>)
    ensures allowedEquipment.Some? ==> allowed == allowedEquipment.value
    ensures allowedEquipment.None? ==> allowed == ["reformer"]
  {
    if allowedEquipment.Some? then allowedEquipment.value else ["reformer"]
  }

  /** The transition limit of the request; the level's own limit when none is given. */
  function TransitionLimit(maxTransitions: Option<int>, config: LevelConfig): int
  {
    if maxTransitions.Some? then maxTransitions.value else config.maxTransitions
  }

  function ViolationCount(plan: ClassPlan): nat
  {
    |ViolationsOf(plan, MaxEquipment)|
  }

  /** `plans[best]` has the fewest violations among `plans`, and no earlier plan has as few. */
  ghost predicate FirstFewest(plans: seq<ClassPlan>, best: nat)
  {
    && best < |plans|
    && (forall k :: 0 <= k < |plans| ==> ViolationCount(plans[best]) <= ViolationCount(plans[k]))
    && (forall k :: 0 <= k < best ==> ViolationCount(plans[best]) < ViolationCount(plans[k]))
  }

  /** Every plan in `plans` was generated for the request, plan k with the draws `draws[k]` as `traces[k]` records. */
  ghost predicate AllGenerated(catalog: seq<Exercise>, durationMinutes: int, level: string, config: LevelConfig,
                               allowed: seq<string>, maxTransitions: int, ordered: seq<Section>,
                               draws: seq<AttemptDraws>, plans: seq<ClassPlan>, traces: seq<Trace>)
  {
    && |plans| == |traces| <= |draws|
    && forall k :: 0 <= k < |plans| ==>
         Generated(catalog, durationMinutes, level, config, allowed, maxTransitions, ordered, draws[k], plans[k],
                   traces[k])
  }

  /** Appending a plan generated with the next draws keeps every plan generated. */
  lemma AllGeneratedSnoc(catalog: seq<Exercise>, durationMinutes: int, level: string, config: LevelConfig,
                         allowed: seq<string>, maxTransitions: int, ordered: seq<Section>, draws: seq<AttemptDraws>,
                         plans: seq<ClassPlan>, traces: seq<Trace>, plan: ClassPlan, trace: Trace)
    requires AllGenerated(catalog, durationMinutes, level, config, allowed, maxTransitions, ordered, draws, plans,
                          traces)
    requires |plans| < |draws|
    requires Generated(catalog, durationMinutes, level, config, allowed, maxTransitions, ordered, draws[|plans|], plan,
                       trace)
    ensures AllGenerated(catalog, durationMinutes, level, config, allowed, maxTransitions, ordered, draws,
                         plans + [plan], traces + [trace])
  {
    var plans', traces' := plans + [plan], traces + [trace];
    forall k | 0 <= k < |plans'|
      ensures Generated(catalog, durationMinutes, level, config, allowed, maxTransitions, ordered, draws[k], plans'[k],
                        traces'[k])
    {
      if k < |plans| {
        assert plans'[k] == plans[k] && traces'[k] == traces[k];
      }
    }
  }

  /**
   * What `generate_class` returns after the attempts `plans` (attempt k used
   * `draws[k]`): every attempt before the last kept one was invalid; a valid
   * plan is returned as soon as one appears; the retries fail as soon as an
   * allocation fails; otherwise, after every draw was used, the first plan
   * with the fewest violations is returned without its empty sections.
   */
  ghost predicate Retried(catalog: seq<Exercise>, level: string, allowed: seq<string>, draws: seq<AttemptDraws>,
                          ordered: seq<Section>, plans: seq<ClassPlan>, best: nat,
                          r: Result<ClassPlan, GenerateError>)
  {
    && NoneFail(catalog, ordered, allowed, level, draws, |plans|)
    && AllInvalid(if plans == [] then [] else plans[..|plans| - 1])
    && (r.Failure? ==>
          && AllInvalid(plans)
          && (draws == [] || (|plans| < |draws| && AllocationFails(catalog, ordered, allowed, level, draws[|plans|].allocation)))
          && (r.error == NoAttempts <==> draws == []))
    && (r.Success? ==>
          || (&& best == |plans| - 1 && ViolationCount(plans[best]) == 0 && r.value == plans[best])
          || (&& |plans| == |draws| && AllInvalid(plans)
              && FirstFewest(plans, best) && r.value == Pruned(plans[best])))
  }

  /** One retry of `generate_class`: an attempt on the given section order, then its validation. */
  method Retry(catalog: seq<Exercise>, ordered: seq<Section>, durationMinutes: int, level: string, config: LevelConfig,
               allowed: seq<string>, maxTransitions: int, draws: AttemptDraws, ghost allDraws: seq<AttemptDraws>,
               ghost plans: seq<ClassPlan>, ghost traces: seq<Trace>)
    returns (outcome: Result<ClassPlan, AllocError>, valid: bool, count: nat, ghost plans': seq<ClassPlan>,
             ghost traces': seq<Trace>)
    requires |ordered| > 0 && ordered[0] == FixedFirst
    requires |plans| < |allDraws| && allDraws[|plans|] == draws
    requires AllGenerated(catalog, durationMinutes, level, config, allowed, maxTransitions, ordered, allDraws, plans,
                          traces)
    ensures outcome.Failure? <==> AllocationFails(catalog, ordered, allowed, level, draws.allocation)
    ensures outcome.Failure? ==> plans' == plans && traces' == traces
    ensures outcome.Success? ==>
              && plans' == plans + [outcome.value]
              && AllGenerated(catalog, durationMinutes, level, config, allowed, maxTransitions, ordered, allDraws,
                              plans', traces')
              && count == ViolationCount(outcome.value)
              && (valid <==> count == 0)
  {
    ghost var trace;
    outcome, trace := BuildPlan(catalog, ordered, durationMinutes, level, config, allowed, maxTransitions, draws);
    plans', traces' := plans, traces;
    valid, count := false, 0;
    if outcome.Success? {
      AllGeneratedSnoc(catalog, durationMinutes, level, config, allowed, maxTransitions, ordered, allDraws, plans,
                       traces, outcome.value, trace);
      plans', traces' := plans + [outcome.value], traces + [trace];
      var violations;
      valid, violations := ValidateClass(outcome.value, MaxEquipment);
      count := |violations|;
    }
  }

  /** Adding a plan keeps the earliest plan with the fewest violations. */
  lemma FirstFewestSnoc(plans: seq<ClassPlan>, best: nat, plan: ClassPlan)
    requires FirstFewest(plans, best)
    ensures ViolationCount(plan) < ViolationCount(plans[best]) ==> FirstFewest(plans + [plan], |plans|)
    ensures ViolationCount(plans[best]) <= ViolationCount(plan) ==> FirstFewest(plans + [plan], best)
  {
    var plans' := plans + [plan];
    forall k | 0 <= k < |plans'|
      ensures ViolationCount(plans'[k]) == if k < |plans| then ViolationCount(plans[k]) else ViolationCount(plan)
    {
      if k < |plans| {
        assert plans'[k] == plans[k];
      }
    }
  }

  /** None of the first `n` draws makes the allocation fail. */
  ghost predicate NoneFail(catalog: seq<Exercise>, ordered: seq<Section>, allowed: seq<string>, level: string,
                           draws: seq<AttemptDraws>, n: nat)
  {
    n <= |draws| && forall k :: 0 <= k < n ==> !AllocationFails(catalog, ordered, allowed, level, draws[k].allocation)
  }

  lemma NoneFailSnoc(catalog: seq<Exercise>, ordered: seq<Section>, allowed: seq<string>, level: string,
                     draws: seq<AttemptDraws>, n: nat)
    requires NoneFail(catalog, ordered, allowed, level, draws, n) && n < |draws|
    requires !AllocationFails(catalog, ordered, allowed, level, draws[n].allocation)
    ensures NoneFail(catalog, ordered, allowed, level, draws, n + 1)
  {
  }

  /** Every plan in `plans` breaks some rule. */
  ghost predicate AllInvalid(plans: seq<ClassPlan>)
  {
    forall k :: 0 <= k < |plans| ==> ViolationCount(plans[k]) > 0
  }

  lemma AllInvalidSnoc(plans: seq<ClassPlan>, plan: ClassPlan)
    requires AllInvalid(plans) && ViolationCount(plan) > 0
    ensures AllInvalid(plans + [plan])
  {
  }

  /** `bestPlan` is the earliest of `plans` with the fewest violations, `bestCount` its count; none before any plan. */
  ghost predicate BestSoFar(plans: seq<ClassPlan>, bestPlan: Option<ClassPlan>, bestCount: nat, best: nat)
  {
    && (bestPlan.None? <==> plans == [])
    && (bestPlan.Some? ==> FirstFewest(plans, best) && bestPlan.value == plans[best]
                           && bestCount == ViolationCount(plans[best]))
  }

  /** The fallback bookkeeping: a plan replaces the best so far only with strictly fewer violations. */
  method KeepFewest(ghost plans: seq<ClassPlan>, bestPlan: Option<ClassPlan>, bestCount: nat, ghost best: nat,
                    plan: ClassPlan, count: nat)
    returns (bestPlan': Option<ClassPlan>, bestCount': nat, ghost best': nat)
    requires BestSoFar(plans, bestPlan, bestCount, best) && count == ViolationCount(plan)
    ensures BestSoFar(plans + [plan], bestPlan', bestCount', best')
  {
    if bestPlan.None? || count < bestCount {
      if bestPlan.Some? {
        FirstFewestSnoc(plans, best, plan);
      }
      return Some(plan), count, |plans|;
    }
    FirstFewestSnoc(plans, best, plan);
    return bestPlan, bestCount, best;
  }

  /**
   * The retry loop of `generate_class` on a fixed section order: one attempt
   * per draw, returning the first valid plan, else the first plan with the
   * fewest violations without its empty sections.
   */
  method RetryAttempts(catalog: seq<Exercise>, ordered: seq<Section>, durationMinutes: int, level: string,
                       config: LevelConfig, allowed: seq<string>, maxTransitions: int, draws: seq<AttemptDraws>)
    returns (r: Result<ClassPlan, GenerateError>, ghost plans: seq<ClassPlan>, ghost best: nat,
             ghost traces: seq<Trace>)
    requires |ordered| > 0 && ordered[0] == FixedFirst
    ensures AllGenerated(catalog, durationMinutes, level, config, allowed, maxTransitions, ordered, draws, plans, traces)
    ensures Retried(catalog, level, allowed, draws, ordered, plans, best, r)
  {
    plans, best, traces := [], 0, [];
    var bestPlan: Option<ClassPlan> := None;
    var bestCount := 0;
    var attempt := 0;
    while attempt < |draws|
      invariant 0 <= attempt <= |draws| && |plans| == attempt
      invariant AllGenerated(catalog, durationMinutes, level, config, allowed, maxTransitions, ordered, draws, plans,
                             traces)
      invariant NoneFail(catalog, ordered, allowed, level, draws, attempt)
      invariant AllInvalid(plans)
      invariant BestSoFar(plans, bestPlan, bestCount, best)
    {
      var outcome, valid, count;
      ghost var before := plans;
      outcome, valid, count, plans, traces :=
        Retry(catalog, ordered, durationMinutes, level, config, allowed, maxTransitions, draws[attempt], draws, plans,
              traces);
      if outcome.Failure? {
        r := Failure(AllocationFailed(outcome.error));
        RetriedAfterFailure(catalog, level, allowed, draws, ordered, plans, best, r);
        return;
      }
      NoneFailSnoc(catalog, ordered, allowed, level, draws, attempt);
      if valid {
        r, best := Success(outcome.value), attempt;
        RetriedAfterValid(catalog, level, allowed, draws, ordered, before, outcome.value);
        return;
      }
      bestPlan, bestCount, best := KeepFewest(before, bestPlan, bestCount, best, outcome.value, count);
      AllInvalidSnoc(before, outcome.value);
      attempt := attempt + 1;
    }
    if bestPlan.None? {
      r := Failure(NoAttempts);
      RetriedAfterFailure(catalog, level, allowed, draws, ordered, plans, best, r);
      return;
    }
    var pruned := PruneEmptySections(bestPlan.value);
    r := Success(pruned);
    RetriedExhausted(catalog, level, allowed, draws, ordered, plans, best);
  }

  /** The retries stop with an error when there is no draw or the next allocation fails. */
  lemma RetriedAfterFailure(catalog: seq<Exercise>, level: string, allowed: seq<string>, draws: seq<AttemptDraws>,
                            ordered: seq<Section>, plans: seq<ClassPlan>, best: nat,
                            r: Result<ClassPlan, GenerateError>)
    requires NoneFail(catalog, ordered, allowed, level, draws, |plans|) && AllInvalid(plans)
    requires r.Failure? && (r.error == NoAttempts <==> draws == [])
    requires draws == [] || (|plans| < |draws| && AllocationFails(catalog, ordered, allowed, level, draws[|plans|].allocation))
    ensures Retried(catalog, level, allowed, draws, ordered, plans, best, r)
  {
    if plans != [] {
      AllInvalidFront(plans);
    }
  }

  /** The retries stop at the first valid plan. */
  lemma RetriedAfterValid(catalog: seq<Exercise>, level: string, allowed: seq<string>, draws: seq<AttemptDraws>,
                          ordered: seq<Section>, before: seq<ClassPlan>, plan: ClassPlan)
    requires NoneFail(catalog, ordered, allowed, level, draws, |before| + 1) && AllInvalid(before)
    requires ViolationCount(plan) == 0
    ensures Retried(catalog, level, allowed, draws, ordered, before + [plan], |before|, Success(plan))
  {
    assert (before + [plan])[..|before|] == before;
  }

  /** With every draw used and no valid plan, the earliest plan with the fewest violations is pruned and returned. */
  lemma RetriedExhausted(catalog: seq<Exercise>, level: string, allowed: seq<string>, draws: seq<AttemptDraws>,
                         ordered: seq<Section>, plans: seq<ClassPlan>, best: nat)
    requires NoneFail(catalog, ordered, allowed, level, draws, |plans|) && |plans| == |draws|
    requires AllInvalid(plans) && FirstFewest(plans, best)
    ensures Retried(catalog, level, allowed, draws, ordered, plans, best, Success(Pruned(plans[best])))
  {
    AllInvalidFront(plans);
  }

  lemma AllInvalidFront(plans: seq<ClassPlan>)
    requires AllInvalid(plans) && plans != []
    ensures AllInvalid(plans[..|plans| - 1])
  {
    var front := plans[..|plans| - 1];
    forall k | 0 <= k < |front| ensures ViolationCount(front[k]) > 0 {
      assert front[k] == plans[k];
    }
  }

  /**
   * `generate_class`: fills in the defaults, orders the sections, then makes
   * one attempt per draw (`max_retries` is `|draws|`), validating each with
   * at most three equipment types. The section order depends only on the
   * catalog, the allowed equipment and the level, so it is computed once
   * here; every attempt of the source computes the same order again.
   */
  method GenerateClass(catalog: seq<Exercise>, durationMinutes: int, level: string,
                       allowedEquipment: Option<seq<string>>, maxTransitions: Option<int>, draws: seq<AttemptDraws>)
    returns (r: Result<ClassPlan, GenerateError>, ghost plans: seq<ClassPlan>, ghost best: nat,
             ghost traces: seq<Trace>)
    ensures var allowed := RequestedEquipment(allowedEquipment);
            var ordered := OrderSections(GroupBySection(catalog), allowed, level);
            && AllGenerated(catalog, durationMinutes, level, GetLevelConfig(level), allowed,
                            TransitionLimit(maxTransitions, GetLevelConfig(level)), ordered, draws, plans, traces)
            && Retried(catalog, level, allowed, draws, ordered, plans, best, r)
  {
    var config := GetLevelConfig(level);
    var allowed := RequestedEquipment(allowedEquipment);
    var limit := TransitionLimit(maxTransitions, config);
    var ordered := OrderedSections(catalog, allowed, level);
    r, plans, best, traces := RetryAttempts(catalog, ordered, durationMinutes, level, config, allowed, limit,
                                                     draws);
  }
}
