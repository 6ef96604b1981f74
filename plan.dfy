/**
 * The generated class plan: the records the builder returns, as values.
 */
module Plans {
  import opened Util
  import opened Catalog

  /** One exercise as it appears in a plan section. */
  datatype PlanExercise = PlanExercise(
    id: string,
    name: string,
    equipment: string,          // the equipment allocated to the section
    springSetting: string,      // "" on mat
    reps: int,
    durationSeconds: int,
    variations: seq<string>,    // at most the first two of the catalog entry
    props: seq<string>,
    usesBox: bool)

  datatype PlanSection = PlanSection(
    id: string,
    name: string,
    order: int,
    allocatedMinutes: real,
    exercises: seq<PlanExercise>)

  datatype ClassPlan = ClassPlan(
    durationMinutes: int,
    level: string,
    levelName: string,
    equipment: seq<string>,
    sections: seq<PlanSection>,
    totalExercises: int,
    equipmentFlow: seq<string>,
    transitions: int,
    maxTransitions: int)

  /** The spring setting that counts on the onEquipment equipment: none on mat. */
  function EffectiveSpring(ex: Exercise, onEquipment: string): string
  {
    if onEquipment != "mat" then ex.springSetting else ""
  }

  /** A catalog exercise placed in a section on its onEquipment equipment. */
  function Entry(ex: Exercise, onEquipment: string): (p: PlanExercise)
    ensures p.id == ex.id && p.name == ex.name && p.durationSeconds == ex.durationSeconds && p.reps == ex.reps
    ensures p.props == ex.props && p.usesBox == ex.usesBox
    ensures p.equipment == onEquipment
    ensures onEquipment == "mat" ==> p.springSetting == ""
    ensures onEquipment != "mat" ==> p.springSetting == ex.springSetting
    ensures p.variations == ex.variations[..Min(2, |ex.variations|)]
  {
    var variations := if |ex.variations| > 2 then ex.variations[..2] else ex.variations;
    PlanExercise(ex.id, ex.name, onEquipment, EffectiveSpring(ex, onEquipment), ex.reps, ex.durationSeconds,
                 variations, ex.props, ex.usesBox)
  }

  /** Sum of the durations of a run of plan exercises. */
  function TotalSeconds(ps: seq<PlanExercise>): real
  {
    if ps == [] then 0.0 else TotalSeconds(ps[..|ps| - 1]) + ps[|ps| - 1].durationSeconds as real
  }

  lemma TotalSecondsSnoc(ps: seq<PlanExercise>, e: PlanExercise)
    ensures TotalSeconds(ps + [e]) == TotalSeconds(ps) + e.durationSeconds as real
  {
    assert (ps + [e])[..|ps|] == ps;
  }

  /** All exercises of a plan, section after section. */
  function AllExercises(sections: seq<PlanSection>): seq<PlanExercise>
  {
    if sections == [] then [] else AllExercises(sections[..|sections| - 1]) + sections[|sections| - 1].exercises
  }

  /** Every exercise of the class sits in one of its sections. */
  lemma {:induction false} InSomeSection(sections: seq<PlanSection>, x: PlanExercise)
    requires x in AllExercises(sections)
    ensures exists i :: 0 <= i < |sections| && x in sections[i].exercises
  {
    var n := |sections| - 1;
    if x !in sections[n].exercises {
      InSomeSection(sections[..n], x);
      var i :| 0 <= i < n && x in sections[..n][i].exercises;
      assert sections[..n][i] == sections[i];
    }
  }
}
