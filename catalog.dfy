/**
 * The read-only exercise catalog of the class builder: exercises, class sections,
 * experience levels, the level ordering and the catalog query.
 */
module Catalog {
  import opened Util

  /** One catalog entry; entries never change after the catalog is loaded. */
  datatype Exercise = Exercise(
    id: string,
    name: string,
    section: string,
    equipment: seq<string>,
    level: string,
    springSetting: string,      // "" means no spring setting
    reps: int,
    durationSeconds: int,
    variations: seq<string>,
    props: seq<string>,
    notes: string,
    usesBox: bool)

  /** A class section; `typicalMinutes` only weighs the time budget. */
  datatype Section = Section(id: string, name: string, typicalMinutes: nat)

  /** An experience level and its tuning constants. */
  datatype LevelConfig = LevelConfig(
    id: string,
    name: string,
    levelNum: real,
    repMultiplier: real,
    exerciseCountMultiplier: real,
    maxTransitions: int)

  const FixedFirst: Section := Section("footwork", "Footwork", 5)
  const FixedLast: Section := Section("stretch", "Stretch", 5)

  /** The eight reorderable middle sections, in catalog declaration order. */
  const FlexibleSections: seq<Section> := [
    Section("bridges", "Bridges", 5),
    Section("abdominals", "Abdominals", 7),
    Section("plank", "Plank", 5),
    Section("upper_body", "Upper Body", 7),
    Section("lower_body", "Lower Body", 7),
    Section("lateral_line", "Lateral Line", 5),
    Section("prone_extension", "Prone/Extension", 5),
    Section("full_body", "Full Body Integration", 5)
  ]

  const ExperienceLevels: seq<LevelConfig> := [
    LevelConfig("beginner", "Beginner (Level 1)", 1.0, 1.2, 0.8, 6),
    LevelConfig("intermediate", "Intermediate (Level 1.5)", 1.5, 1.0, 1.0, 6),
    LevelConfig("advanced", "Advanced (Level 2)", 2.0, 0.85, 1.15, 6),
    LevelConfig("advanced_plus", "Advanced+ (Level 2.5)", 2.5, 0.75, 1.25, 8)
  ]

  /** The flexible section ids are pairwise different, and differ from the fixed ones. */
  lemma FlexibleSectionsDistinct()
    ensures Distinct(FlexibleSections)
    ensures forall s :: s in FlexibleSections ==> s.id != FixedFirst.id && s.id != FixedLast.id
  {
  }

  /** Numeric rank of a level id; an unknown id ranks as intermediate (1.5). */
  function LevelRank(level: string): real
  {
    if level == "beginner" then 1.0
    else if level == "intermediate" then 1.5
    else if level == "advanced" then 2.0
    else if level == "advanced_plus" then 2.5
    else 1.5
  }

  /** An exercise tagged `exerciseLevel` may be used in a class of level `targetLevel`. */
  predicate LevelMatches(exerciseLevel: string, targetLevel: string)
  {
    LevelRank(exerciseLevel) <= LevelRank(targetLevel)
  }

  predicate KnownLevel(level: string)
  {
    exists c :: c in ExperienceLevels && c.id == level
  }

  /** Level matching is a total preorder: reflexive, transitive and total. */
  lemma LevelMatchesTotalPreorder(a: string, b: string, c: string)
    ensures LevelMatches(a, a)
    ensures LevelMatches(a, b) && LevelMatches(b, c) ==> LevelMatches(a, c)
    ensures LevelMatches(a, b) || LevelMatches(b, a)
  {
  }

  /** An unknown level id behaves exactly like "intermediate", on either side. */
  lemma UnknownLevelIsIntermediate(unknown: string, other: string)
    requires !KnownLevel(unknown)
    ensures LevelMatches(unknown, other) == LevelMatches("intermediate", other)
    ensures LevelMatches(other, unknown) == LevelMatches(other, "intermediate")
  {
    assert unknown != ExperienceLevels[0].id && unknown != ExperienceLevels[1].id;
    assert unknown != ExperienceLevels[2].id && unknown != ExperienceLevels[3].id;
  }

  /** Beginner exercises suit every class, and an advanced-plus class accepts every exercise. */
  lemma LevelExtremes(level: string)
    ensures LevelMatches("beginner", level)
    ensures LevelMatches(level, "advanced_plus")
  {
  }

  /** First configuration in `levels` whose id is `level`. */
  function FindLevel(levels: seq<LevelConfig>, level: string): (r: Option<LevelConfig>)
    ensures r.Some? ==> r.value in levels && r.value.id == level
    ensures r.None? <==> forall c :: c in levels ==> c.id != level
  {
    if levels == [] then None
    else if levels[0].id == level then Some(levels[0])
    else FindLevel(levels[1..], level)
  }

  /** The configuration of a level; an unknown id gets the intermediate entry (index 1). */
  function GetLevelConfig(level: string): (r: LevelConfig)
    ensures r in ExperienceLevels
    ensures KnownLevel(level) ==> r.id == level
    ensures !KnownLevel(level) ==> r == ExperienceLevels[1]
    ensures r.levelNum == LevelRank(level)
  {
    match FindLevel(ExperienceLevels, level)
    case Some(c) => c
    case None => ExperienceLevels[1]
  }

  /** Python truthiness of an optional string filter: None and "" both mean "no filter". */
  predicate Active(filter: Option<string>)
  {
    filter.Some? && filter.value != ""
  }

  /** The catalog query's per-entry test. */
  predicate Keep(ex: Exercise, section: Option<string>, equipment: Option<string>, level: Option<string>)
  {
    && (Active(section) ==> ex.section == section.value)
    && (Active(equipment) ==> equipment.value in ex.equipment)
    && (Active(level) ==> LevelMatches(ex.level, level.value))
  }

  /** Catalog entries filtered by section, equipment and level, in catalog order. */
  function GetExercises(catalog: seq<Exercise>, section: Option<string>, equipment: Option<string>, level: Option<string>)
    : (r: seq<Exercise>)
    ensures forall ex :: ex in r <==> ex in catalog && Keep(ex, section, equipment, level)
    ensures forall ex :: multiset(r)[ex] == if Keep(ex, section, equipment, level) then multiset(catalog)[ex] else 0
    ensures !Active(section) && !Active(equipment) && !Active(level) ==> r == catalog
  {
    var r := Filter(catalog, (ex: Exercise) => Keep(ex, section, equipment, level));
    assert forall ex :: multiset(r)[ex] == if Keep(ex, section, equipment, level) then multiset(catalog)[ex] else 0 by {
      forall ex ensures multiset(r)[ex] == if Keep(ex, section, equipment, level) then multiset(catalog)[ex] else 0 {
        FilterMultiset(catalog, (ex: Exercise) => Keep(ex, section, equipment, level), ex);
      }
    }
    assert !Active(section) && !Active(equipment) && !Active(level) ==> r == catalog by {
      if !Active(section) && !Active(equipment) && !Active(level) {
        FilterAll(catalog, (ex: Exercise) => Keep(ex, section, equipment, level));
      }
    }
    r
  }

  /** Exercises of section `sectionId` that can be done on `equipment` at `level` (no truthiness shortcut). */
  function Available(catalog: seq<Exercise>, sectionId: string, equipment: string, level: string): (r: seq<Exercise>)
    ensures forall ex :: ex in r <==>
      ex in catalog && ex.section == sectionId && equipment in ex.equipment && LevelMatches(ex.level, level)
  {
    Filter(catalog, (ex: Exercise) => ex.section == sectionId && equipment in ex.equipment && LevelMatches(ex.level, level))
  }

  /** With non-empty ids the attempt's candidate list is the catalog query with all three filters. */
  lemma AvailableIsQuery(catalog: seq<Exercise>, sectionId: string, equipment: string, level: string)
    requires sectionId != "" && equipment != "" && level != ""
    ensures Available(catalog, sectionId, equipment, level)
         == GetExercises(catalog, Some(sectionId), Some(equipment), Some(level))
  {
    FilterAgree(catalog,
      (ex: Exercise) => ex.section == sectionId && equipment in ex.equipment && LevelMatches(ex.level, level),
      (ex: Exercise) => Keep(ex, Some(sectionId), Some(equipment), Some(level)));
  }
}
