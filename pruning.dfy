/**
 * The fallback plan's clean-up: sections without exercises are dropped and the
 * remaining ones renumbered from 1.
 */
module Pruning {
  import opened Util
  import opened Plans
  import opened Validation

  predicate HasExercises(s: PlanSection)
  {
    s.exercises != []
  }

  /** Sections renumbered 1, 2, ... in their order. */
  function Renumbered(sections: seq<PlanSection>): (r: seq<PlanSection>)
    ensures |r| == |sections|
    ensures forall i :: 0 <= i < |r| ==> r[i].order == i + 1
    ensures forall i :: 0 <= i < |r| ==> r[i] == sections[i].(order := r[i].order)
  {
    seq(|sections|, i requires 0 <= i < |sections| => sections[i].(order := i + 1))
  }

  /**
   * The plan without its empty sections, renumbered; every other field is
   * kept. Section `k` of the result is the input section at the `k`-th
   * position of `KeptPositions`, which lists, in increasing order, exactly
   * the positions of the sections with exercises.
   */
  function Pruned(plan: ClassPlan): (p: ClassPlan)
    ensures p == plan.(sections := p.sections)
    ensures forall i :: 0 <= i < |p.sections| ==> HasExercises(p.sections[i]) && p.sections[i].order == i + 1
    ensures |p.sections| <= |plan.sections|
    ensures var ix := KeptPositions(plan.sections, HasExercises);
            && |p.sections| == |ix| && StrictlyIncreasing(ix)
            && (forall i :: 0 <= i < |plan.sections| ==> (i in ix <==> HasExercises(plan.sections[i])))
            && (forall k :: 0 <= k < |ix| ==> p.sections[k] == plan.sections[ix[k]].(order := k + 1))
  {
    var kept := Filter(plan.sections, HasExercises);
    assert forall i :: 0 <= i < |kept| ==> kept[i] in kept;
    KeptPositionsExact(plan.sections, HasExercises);
    plan.(sections := Renumbered(kept))
  }

  /**
   * The end of `generate_class`: the list comprehension that keeps the
   * sections with exercises, then the loop that renumbers them.
   */
  method PruneEmptySections(plan: ClassPlan) returns (pruned: ClassPlan)
    ensures pruned == Pruned(plan)
  {
    var kept := Filter(plan.sections, HasExercises);
    var sections := kept;
    var i := 0;
    while i < |sections|
      invariant 0 <= i <= |sections| == |kept|
      invariant forall k :: 0 <= k < i ==> sections[k] == kept[k].(order := k + 1)
      invariant forall k :: i <= k < |sections| ==> sections[k] == kept[k]
    {
      sections := sections[i := sections[i].(order := i + 1)];
      i := i + 1;
    }
    assert sections == Renumbered(kept);
    pruned := plan.(sections := sections);
  }

  /** Renumbering does not change which exercises the class holds. */
  lemma {:induction false} RenumberedExercises(sections: seq<PlanSection>)
    ensures AllExercises(Renumbered(sections)) == AllExercises(sections)
  {
    if sections != [] {
      var n := |sections| - 1;
      assert Renumbered(sections)[..n] == Renumbered(sections[..n]);
      RenumberedExercises(sections[..n]);
    }
  }

  /** Dropping sections without exercises does not change which exercises the class holds. */
  lemma {:induction false} KeptExercises(sections: seq<PlanSection>)
    ensures AllExercises(Filter(sections, HasExercises)) == AllExercises(sections)
  {
    if sections != [] {
      var n := |sections| - 1;
      assert sections == sections[..n] + [sections[n]];
      FilterSnoc(sections[..n], sections[n], HasExercises);
      KeptExercises(sections[..n]);
      AllExercisesAppend(Filter(sections[..n], HasExercises), if HasExercises(sections[n]) then [sections[n]] else []);
    }
  }

  lemma AllExercisesAppend(a: seq<PlanSection>, b: seq<PlanSection>)
    requires |b| <= 1
    ensures AllExercises(a + b) == AllExercises(a) + AllExercises(b)
  {
    if b != [] {
      assert (a + b)[..|a|] == a;
      assert b[..0] == [];
    } else {
      assert a + b == a;
    }
  }

  /** Pruning keeps every exercise of the plan, in order. */
  lemma PrunedExercises(plan: ClassPlan)
    ensures AllExercises(Pruned(plan).sections) == AllExercises(plan.sections)
  {
    KeptExercises(plan.sections);
    RenumberedExercises(Filter(plan.sections, HasExercises));
  }

  /**
   * Pruning removes exactly the empty-section violations: the transition and
   * equipment violations are those of the unpruned plan.
   */
  lemma PrunedViolations(plan: ClassPlan, maxEquipment: int)
    ensures ViolationsOf(Pruned(plan), maxEquipment)
         == ViolationsOf(plan, maxEquipment)[|EmptySections(plan.sections)|..]
  {
    PrunedLimits(plan, maxEquipment);
    PrunedNoEmpty(plan);
    var empty := EmptySections(plan.sections);
    assert (empty + LimitViolations(plan, maxEquipment))[|empty|..] == LimitViolations(plan, maxEquipment);
  }

  lemma PrunedLimits(plan: ClassPlan, maxEquipment: int)
    ensures LimitViolations(Pruned(plan), maxEquipment) == LimitViolations(plan, maxEquipment)
  {
    var p := Pruned(plan);
    PrunedExercises(plan);
    assert UsedEquipment(p.sections) == UsedEquipment(plan.sections);
  }

  lemma PrunedNoEmpty(plan: ClassPlan)
    ensures EmptySections(Pruned(plan).sections) == []
  {
    var p := Pruned(plan);
    assert forall i :: 0 <= i < |p.sections| ==> p.sections[i].exercises != [];
  }

  /** Pruning a pruned plan changes nothing. */
  lemma PrunedIdempotent(plan: ClassPlan)
    ensures Pruned(Pruned(plan)) == Pruned(plan)
  {
    var p := Pruned(plan);
    FilterAll(p.sections, HasExercises);
    assert Renumbered(p.sections) == p.sections;
  }

  /** A plan without empty sections and numbered from 1 is its own pruning. */
  lemma PrunedIdentity(plan: ClassPlan)
    requires forall i :: 0 <= i < |plan.sections| ==> HasExercises(plan.sections[i]) && plan.sections[i].order == i + 1
    ensures Pruned(plan) == plan
  {
    FilterAll(plan.sections, HasExercises);
    assert Renumbered(plan.sections) == plan.sections;
  }
}
