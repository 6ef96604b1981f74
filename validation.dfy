/**
 * Plan validation: the contiguous-equipment check over a run of exercises
 * and the rule check over a whole class plan.
 */
module Validation {
  import opened Util
  import opened Flow
  import opened Plans

  /** The equipment of each exercise, in order. */
  function EquipmentOf(es: seq<PlanExercise>): (r: seq<string>)
    ensures |r| == |es| && forall i :: 0 <= i < |es| ==> r[i] == es[i].equipment
  {
    seq(|es|, i requires 0 <= i < |es| => es[i].equipment)
  }

  /** A linear prefix stays linear when the next element is not a return. */
  lemma LinearExtends(xs: seq<string>, i: nat)
    requires i < |xs| && Linear(xs[..i]) && (i == 0 || !ReturnsAt(xs, i))
    ensures Linear(xs[..i + 1])
  {
    var ys := xs[..i + 1];
    forall k | 0 < k < |ys| ensures !ReturnsAt(ys, k) {
      assert ys[..k] == xs[..k];
      if k < i {
        assert xs[..i][..k] == xs[..k];
        assert !ReturnsAt(xs[..i], k);
      }
    }
  }

  /** Extending a prefix by one element extends its first appearances when the element is new. */
  lemma FirstAppearancesStep(xs: seq<string>, i: nat)
    requires i < |xs|
    ensures FirstAppearances(xs[..i + 1]) ==
              if xs[i] in xs[..i] then FirstAppearances(xs[..i]) else FirstAppearances(xs[..i]) + [xs[i]]
  {
    assert xs[..i + 1][..i] == xs[..i];
  }

  /** The walk's state after the first `i` ids: first appearances so far, the last of them just used. */
  ghost predicate WalkedTo(xs: seq<string>, i: nat, sequence: seq<string>)
  {
    && i <= |xs|
    && sequence == FirstAppearances(xs[..i])
    && Linear(xs[..i])
    && (i > 0 ==> sequence != [] && sequence[|sequence| - 1] == xs[i - 1])
  }

  /** An id that is new, or equal to the last one introduced, continues the walk. */
  lemma WalkContinues(xs: seq<string>, i: nat, sequence: seq<string>)
    requires WalkedTo(xs, i, sequence) && i < |xs|
    requires xs[i] !in xs[..i] || sequence[|sequence| - 1] == xs[i]
    ensures WalkedTo(xs, i + 1, if xs[i] in xs[..i] then sequence else sequence + [xs[i]])
  {
    FirstAppearancesStep(xs, i);
    LinearExtends(xs, i);
  }

  /** A used id other than the last one introduced is a return. */
  lemma WalkStops(xs: seq<string>, i: nat, sequence: seq<string>)
    requires WalkedTo(xs, i, sequence) && i < |xs|
    requires xs[i] in xs[..i] && sequence[|sequence| - 1] != xs[i]
    ensures 0 < i && ReturnsAt(xs, i) && !Linear(xs)
  {
    assert |xs[..i]| > 0;
    assert ReturnsAt(xs, i);
  }

  /**
   * `_validate_equipment_flow`: walks the exercises collecting equipment in
   * order of first use and stops at the first return to equipment that was
   * left. `stop` (ghost) is where the walk ended.
   */
  method ValidateEquipmentFlow(exercises: seq<PlanExercise>) returns (ok: bool, sequence: seq<string>, ghost stop: nat)
    ensures ok <==> Linear(EquipmentOf(exercises))
    ensures stop <= |exercises| && sequence == FirstAppearances(EquipmentOf(exercises)[..stop])
    ensures ok ==> stop == |exercises|
    ensures !ok ==> 0 < stop < |exercises| && ReturnsAt(EquipmentOf(exercises), stop)
                    && Linear(EquipmentOf(exercises)[..stop])
  {
    ghost var xs := EquipmentOf(exercises);
    sequence := [];
    var seen: set<string> := {};
    var i := 0;
    while i < |exercises|
      invariant WalkedTo(xs, i, sequence)
      invariant forall e :: e in seen <==> e in xs[..i]
    {
      var eq := exercises[i].equipment;
      if eq in seen && sequence[|sequence| - 1] != eq {
        WalkStops(xs, i, sequence);
        return false, sequence, i;
      }
      WalkContinues(xs, i, sequence);
      TakeSnoc(xs, i);
      ghost var walked := if xs[i] in xs[..i] then sequence else sequence + [xs[i]];
      if eq !in seen {
        sequence := sequence + [eq];
        seen := seen + {eq};
      }
      assert sequence == walked;
      i := i + 1;
    }
    assert xs[..i] == xs;
    return true, sequence, i;
  }

  /** A rule violation of a generated plan (the source reports each as a message). */
  datatype Violation =
    | EmptySection(name: string)
    | TooManyTransitions(transitions: int, maxTransitions: int)
    | TooManyEquipment(count: nat, maxEquipment: int)

  /** The positions of the sections without exercises, in increasing order. */
  function EmptyPositions(sections: seq<PlanSection>): (ix: seq<nat>)
    ensures StrictlyIncreasing(ix) && |ix| <= |sections|
    ensures forall k :: 0 <= k < |ix| ==> ix[k] < |sections|
    ensures forall i :: 0 <= i < |sections| ==> (sections[i].exercises == [] <==> i in ix)
  {
    if sections == [] then []
    else
      var n := |sections| - 1;
      var front := EmptyPositions(sections[..n]);
      assert forall i :: 0 <= i < n ==> sections[..n][i] == sections[i];
      front + (if sections[n].exercises == [] then [n] else [])
  }

  /** One violation per section without exercises, in section order. */
  function EmptySections(sections: seq<PlanSection>): (r: seq<Violation>)
    ensures |r| <= |sections|
    ensures r == [] <==> forall i :: 0 <= i < |sections| ==> sections[i].exercises != []
    ensures forall v :: v in r ==> v.EmptySection?
  {
    if sections == [] then []
    else
      var front, s := sections[..|sections| - 1], sections[|sections| - 1];
      assert forall i :: 0 <= i < |front| ==> front[i] == sections[i];
      EmptySections(front) + (if s.exercises == [] then [EmptySection(s.name)] else [])
  }

  /** The `k`-th violation names the `k`-th section without exercises, and there is one per such section. */
  lemma {:induction false} EmptySectionsPositions(sections: seq<PlanSection>)
    ensures var r, ix := EmptySections(sections), EmptyPositions(sections);
            && |r| == |ix|
            && forall k :: 0 <= k < |r| ==> r[k] == EmptySection(sections[ix[k]].name)
  {
    if sections != [] {
      var front, s := sections[..|sections| - 1], sections[|sections| - 1];
      EmptySectionsPositions(front);
      var ix, fix := EmptyPositions(sections), EmptyPositions(front);
      assert ix == fix + (if s.exercises == [] then [|front|] else []);
      assert forall k :: 0 <= k < |fix| ==> sections[ix[k]] == front[fix[k]];
    }
  }

  /** Extending the prefix by one section adds its violation, if any. */
  lemma EmptySectionsStep(sections: seq<PlanSection>, i: nat)
    requires i < |sections|
    ensures EmptySections(sections[..i + 1])
            == EmptySections(sections[..i]) + (if sections[i].exercises == [] then [EmptySection(sections[i].name)] else [])
  {
    assert sections[..i + 1][..i] == sections[..i];
  }

  /** The non-empty equipment ids used anywhere in the sections. */
  function UsedEquipment(sections: seq<PlanSection>): (used: set<string>)
    ensures forall e :: e in used <==> e != "" && e in EquipmentOf(AllExercises(sections))
  {
    if sections == [] then {}
    else
      var front, s := sections[..|sections| - 1], sections[|sections| - 1];
      assert forall e :: e in EquipmentOf(AllExercises(sections)) <==>
                         e in EquipmentOf(AllExercises(front)) || e in EquipmentOf(s.exercises) by {
        EquipmentOfAppend(AllExercises(front), s.exercises);
      }
      UsedEquipment(front) + set e | e in EquipmentOf(s.exercises) && e != ""
  }

  lemma EquipmentOfAppend(a: seq<PlanExercise>, b: seq<PlanExercise>)
    ensures EquipmentOf(a + b) == EquipmentOf(a) + EquipmentOf(b)
  {
  }

  /** The violations `_validate_class` reports, in its order. */
  function ViolationsOf(plan: ClassPlan, maxEquipment: int): (r: seq<Violation>)
    ensures r == [] <==>
              && (forall i :: 0 <= i < |plan.sections| ==> plan.sections[i].exercises != [])
              && plan.transitions <= plan.maxTransitions
              && |UsedEquipment(plan.sections)| <= maxEquipment
    ensures |r| <= |plan.sections| + 2
  {
    EmptySections(plan.sections) + LimitViolations(plan, maxEquipment)
  }

  /** The violations of the transition limit and of the equipment limit, in that order. */
  function LimitViolations(plan: ClassPlan, maxEquipment: int): seq<Violation>
  {
    (if plan.transitions > plan.maxTransitions then [TooManyTransitions(plan.transitions, plan.maxTransitions)] else [])
    + (var n := |UsedEquipment(plan.sections)|; if n > maxEquipment then [TooManyEquipment(n, maxEquipment)] else [])
  }

  /** The non-empty equipment ids of one run of exercises. */
  function EquipmentSet(es: seq<PlanExercise>): set<string>
  {
    set e | e in EquipmentOf(es) && e != ""
  }

  /** Adding a section adds the equipment of its exercises. */
  lemma UsedEquipmentSnoc(sections: seq<PlanSection>, i: nat)
    requires i < |sections|
    ensures UsedEquipment(sections[..i + 1]) == UsedEquipment(sections[..i]) + EquipmentSet(sections[i].exercises)
  {
    assert sections[..i + 1][..i] == sections[..i];
  }

  /** The equipment-collecting loops of `_validate_class`. */
  method CollectUsedEquipment(sections: seq<PlanSection>) returns (used: set<string>)
    ensures used == UsedEquipment(sections)
  {
    used := {};
    var i := 0;
    while i < |sections|
      invariant 0 <= i <= |sections|
      invariant used == UsedEquipment(sections[..i])
    {
      var exercises := sections[i].exercises;
      var j := 0;
      ghost var before := used;
      while j < |exercises|
        invariant 0 <= j <= |exercises|
        invariant used == before + EquipmentSet(exercises[..j])
      {
        assert EquipmentOf(exercises[..j + 1]) == EquipmentOf(exercises[..j]) + [exercises[j].equipment];
        if exercises[j].equipment != "" {
          used := used + {exercises[j].equipment};
        }
        j := j + 1;
      }
      assert exercises[..j] == exercises;
      UsedEquipmentSnoc(sections, i);
      i := i + 1;
    }
    assert sections[..i] == sections;
  }

  /** `_validate_class`: empty sections, the transition limit, the equipment limit. */
  method ValidateClass(plan: ClassPlan, maxEquipment: int) returns (valid: bool, violations: seq<Violation>)
    ensures violations == ViolationsOf(plan, maxEquipment)
    ensures valid <==> violations == []
  {
    violations := [];
    var i := 0;
    while i < |plan.sections|
      invariant 0 <= i <= |plan.sections|
      invariant violations == EmptySections(plan.sections[..i])
    {
      EmptySectionsStep(plan.sections, i);
      if plan.sections[i].exercises == [] {
        violations := violations + [EmptySection(plan.sections[i].name)];
      }
      i := i + 1;
    }
    assert plan.sections[..i] == plan.sections;
    var limits: seq<Violation> := [];
    if plan.transitions > plan.maxTransitions {
      limits := [TooManyTransitions(plan.transitions, plan.maxTransitions)];
    }
    var used := CollectUsedEquipment(plan.sections);
    if |used| > maxEquipment {
      limits := limits + [TooManyEquipment(|used|, maxEquipment)];
    }
    violations := violations + limits;
    valid := |violations| == 0;
  }
}
