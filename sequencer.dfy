/**
 * Block sequencing: the eight flexible sections are ordered so that those that
 * cannot use the secondary equipment come first and those that can come last,
 * each group in catalog declaration order.
 */
module Sequencer {
  import opened Util
  import opened Catalog
  import opened Tallies

  /** Exercises of one section, in catalog order. */
  function SectionExercises(catalog: seq<Exercise>, sectionId: string): (r: seq<Exercise>)
    ensures forall ex :: ex in r <==> ex in catalog && ex.section == sectionId
  {
    Filter(catalog, (ex: Exercise) => ex.section == sectionId)
  }

  /**
   * The attempt's `exercises_by_section`: every section id that occurs in the
   * catalog, mapped to that section's exercises in catalog order. Defined one
   * exercise at a time, as the grouping loop builds it.
   */
  function GroupBySection(catalog: seq<Exercise>): map<string, seq<Exercise>>
  {
    if catalog == [] then map[]
    else
      var g := GroupBySection(catalog[..|catalog| - 1]);
      var ex := catalog[|catalog| - 1];
      g[ex.section := (if ex.section in g then g[ex.section] else []) + [ex]]
  }

  /** The grouping holds exactly the sections that occur, each with its exercises in catalog order. */
  lemma {:induction false} GroupBySectionContents(catalog: seq<Exercise>)
    ensures forall sid :: sid in GroupBySection(catalog) <==> exists ex :: ex in catalog && ex.section == sid
    ensures forall sid :: sid in GroupBySection(catalog) ==> GroupBySection(catalog)[sid] == SectionExercises(catalog, sid)
  {
    if catalog != [] {
      var front, ex := catalog[..|catalog| - 1], catalog[|catalog| - 1];
      assert catalog == front + [ex];
      GroupBySectionContents(front);
      var g, h := GroupBySection(front), GroupBySection(catalog);
      forall sid ensures sid in h <==> exists e :: e in catalog && e.section == sid {
        if sid in h && sid != ex.section {
          var e :| e in front && e.section == sid;
          assert e in catalog;
        }
        if exists e :: e in catalog && e.section == sid {
          var e :| e in catalog && e.section == sid;
          if e != ex {
            assert e in front;
          }
        }
      }
      forall sid | sid in h ensures h[sid] == SectionExercises(catalog, sid) {
        SectionExercisesSnoc(front, ex, sid);
        if sid !in g {
          FilterNone(front, (ex: Exercise) => ex.section == sid);
        }
      }
    }
  }

  /** Appending an exercise appends it to its own section's list and leaves the others alone. */
  lemma SectionExercisesSnoc(catalog: seq<Exercise>, ex: Exercise, sectionId: string)
    ensures SectionExercises(catalog + [ex], sectionId)
         == SectionExercises(catalog, sectionId) + (if ex.section == sectionId then [ex] else [])
  {
    FilterSnoc(catalog, ex, (ex: Exercise) => ex.section == sectionId);
  }

  /** The attempt's grouping loop: each exercise is appended to the list of its section. */
  method GroupExercises(catalog: seq<Exercise>) returns (groups: map<string, seq<Exercise>>)
    ensures groups == GroupBySection(catalog)
  {
    groups := map[];
    var i := 0;
    while i < |catalog|
      invariant 0 <= i <= |catalog|
      invariant groups == GroupBySection(catalog[..i])
    {
      var ex := catalog[i];
      if ex.section !in groups {
        groups := groups[ex.section := []];
      }
      groups := groups[ex.section := groups[ex.section] + [ex]];
      assert catalog[..i + 1] == catalog[..i] + [ex] && catalog[..i + 1][..i] == catalog[..i];
      i := i + 1;
    }
    assert catalog[..i] == catalog;
  }

  /** `allowed_equipment[1]` if there is one (Python `None` otherwise). */
  function Secondary(allowed: seq<string>): Option<string>
  {
    if |allowed| > 1 then Some(allowed[1]) else None
  }

  /**
   * A section is secondary-capable when the secondary equipment is set (and
   * non-empty) and the section's group counts at least one level-suitable
   * exercise for it. A section missing from `groups` is not capable.
   */
  predicate SecondaryCapable(allowed: seq<string>, groups: map<string, seq<Exercise>>, level: string, s: Section)
  {
    && Active(Secondary(allowed))
    && s.id in groups
    && Get(TallyOf(groups[s.id], s.id, level, allowed), allowed[1]) > 0
  }

  /** Capability judged on the grouped catalog is capability judged on the whole catalog. */
  lemma CapableIffUsable(allowed: seq<string>, catalog: seq<Exercise>, level: string, s: Section)
    ensures SecondaryCapable(allowed, GroupBySection(catalog), level, s)
        <==> Active(Secondary(allowed)) && Usable(catalog, s.id, level, allowed[1])
  {
    var groups := GroupBySection(catalog);
    GroupBySectionContents(catalog);
    if Active(Secondary(allowed)) {
      var e := allowed[1];
      if Usable(catalog, s.id, level, e) {
        var ex :| ex in catalog && ex.section == s.id && LevelMatches(ex.level, level) && e in ex.equipment;
        assert s.id in groups;
        assert ex in groups[s.id];
      }
      if s.id in groups && Usable(groups[s.id], s.id, level, e) {
        var ex: Exercise :| ex in groups[s.id] && ex.section == s.id && LevelMatches(ex.level, level) && e in ex.equipment;
        assert ex in catalog;
      }
    }
  }

  /** `_optimize_section_order`: primary-only sections first, then secondary-capable ones. */
  function OptimizeSectionOrder(flexible: seq<Section>, allowed: seq<string>, groups: map<string, seq<Exercise>>,
                                level: string): (r: seq<Section>)
    ensures multiset(r) == multiset(flexible)
    ensures |r| == |flexible|
    ensures forall i, j :: 0 <= i < j < |r| && SecondaryCapable(allowed, groups, level, r[i])
                           ==> SecondaryCapable(allowed, groups, level, r[j])
    ensures !Active(Secondary(allowed)) ==> r == flexible
  {
    var capable := (s: Section) => SecondaryCapable(allowed, groups, level, s);
    var r := Partition(flexible, capable);
    assert !Active(Secondary(allowed)) ==> r == flexible by {
      if !Active(Secondary(allowed)) {
        PartitionNoneHolds(flexible, capable);
      }
    }
    // The source's final loop appends sections missing from the result; none is missing.
    PermutationContainsAll(r, flexible);
    AppendMissing(r, flexible)
  }

  lemma PermutationContainsAll(r: seq<Section>, all: seq<Section>)
    requires multiset(r) == multiset(all)
    ensures forall s :: s in all ==> s in r
  {
    forall s | s in all ensures s in r {
      assert multiset(r)[s] > 0;
    }
  }

  /** `for section in FLEXIBLE_SECTIONS: if section not in ordered: ordered.append(section)`. */
  function AppendMissing(ordered: seq<Section>, all: seq<Section>): (r: seq<Section>)
    ensures (forall s :: s in all ==> s in ordered) ==> r == ordered
    decreases |all|
  {
    if all == [] then ordered
    else AppendMissing(if all[0] in ordered then ordered else ordered + [all[0]], all[1..])
  }

  /** Each of the two groups keeps the declaration order of the flexible sections. */
  lemma OptimizeSectionOrderIsStable(flexible: seq<Section>, allowed: seq<string>, groups: map<string, seq<Exercise>>,
                                     level: string, i: nat, j: nat)
    requires Distinct(flexible)
    requires i < j < |OptimizeSectionOrder(flexible, allowed, groups, level)|
    requires SecondaryCapable(allowed, groups, level, OptimizeSectionOrder(flexible, allowed, groups, level)[i])
         == SecondaryCapable(allowed, groups, level, OptimizeSectionOrder(flexible, allowed, groups, level)[j])
    ensures OptimizeSectionOrder(flexible, allowed, groups, level)[i] in flexible
    ensures OptimizeSectionOrder(flexible, allowed, groups, level)[j] in flexible
    ensures IndexOf(flexible, OptimizeSectionOrder(flexible, allowed, groups, level)[i])
          < IndexOf(flexible, OptimizeSectionOrder(flexible, allowed, groups, level)[j])
  {
    var capable := (s: Section) => SecondaryCapable(allowed, groups, level, s);
    var r := OptimizeSectionOrder(flexible, allowed, groups, level);
    assert r == Partition(flexible, capable) by {
      if !Active(Secondary(allowed)) {
        PartitionNoneHolds(flexible, capable);
      }
    }
    PartitionIsStable(flexible, capable, i, j);
  }
}
