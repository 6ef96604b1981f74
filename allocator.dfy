/**
 * Equipment allocation: one equipment id per ordered section. A default
 * cascade, then (on most draws) a contiguous run of sections moved to the
 * secondary equipment and a re-assignment of the sections after that run,
 * then the linear-flow repair.
 */
module Allocator {
  import opened Util
  import opened Catalog
  import opened Tallies
  import opened Sequencer
  import opened Flow

  /** The random draws of one allocation, supplied from outside so every outcome is covered. */
  datatype AllocationDraws = AllocationDraws(
    patternRoll: real,   // random.random(): secondary used when > 0.10, high variety when > 0.55
    span: nat,           // random.randint: index into the allowed range of run lengths
    earlyRoll: real,     // random.random(): start drawn from the earlier half when < 0.7
    pick: nat)           // random.choice: index into the candidate starts

  /** `random.randint(low, high)` with low > high raises ValueError. */
  datatype AllocError = EmptyRandintRange(low: int, high: int)

  /** `allowed_equipment[0] if allowed_equipment else "mat"`. */
  function Primary(allowed: seq<string>): (p: string)
    ensures allowed != [] ==> p == allowed[0] && p in allowed
    ensures allowed == [] ==> p == "mat"
  {
    if |allowed| > 0 then allowed[0] else "mat"
  }


  /** Every tally is well formed and counts only allowed equipment. */
  ghost predicate CountsWellFormed(counts: SectionCounts, allowed: seq<string>)
  {
    forall sid :: sid in counts ==>
      WellFormed(counts[sid]) && forall k :: Get(counts[sid], k) > 0 ==> k in allowed
  }

  /** The section has no usable exercise on any allowed equipment. */
  predicate NoCounts(counts: SectionCounts, sectionId: string)
  {
    sectionId !in counts || counts[sectionId] == []
  }

  /** `e` can fill the section, or nothing allowed could. */
  predicate Executable(counts: SectionCounts, sectionId: string, e: string)
  {
    CountIn(counts, sectionId, e) > 0 || NoCounts(counts, sectionId)
  }

  /** One equipment id per section, each of which can fill its section. */
  predicate AllExecutable(ordered: seq<Section>, counts: SectionCounts, allocations: seq<string>)
  {
    |allocations| == |ordered| && forall i :: 0 <= i < |ordered| ==> Executable(counts, ordered[i].id, allocations[i])
  }

  /** With a non-empty allowed list, only allowed equipment is assigned. */
  predicate AllAllowed(allocations: seq<string>, allowed: seq<string>)
  {
    allowed != [] ==> forall i :: 0 <= i < |allocations| ==> allocations[i] in allowed
  }

  /** The per-section tallies, keyed by section id. */
  function ExerciseCounts(catalog: seq<Exercise>, ordered: seq<Section>, level: string, allowed: seq<string>)
    : (counts: SectionCounts)
    ensures CountsWellFormed(counts, allowed)
    ensures forall s :: s in ordered ==> s.id in counts
    ensures forall sid, e :: sid in counts ==>
              (CountIn(counts, sid, e) > 0 <==> e in allowed && Usable(catalog, sid, level, e))
    ensures forall sid :: sid in counts ==>
              (NoCounts(counts, sid) <==> forall e :: e in allowed ==> !Usable(catalog, sid, level, e))
  {
    map s | s in ordered :: s.id := TallyOf(catalog, s.id, level, allowed)
  }

  /** The initial cascade for one section. */
  function DefaultEquipment(counts: SectionCounts, sectionId: string, allowed: seq<string>): (e: string)
    requires CountsWellFormed(counts, allowed)
    ensures Executable(counts, sectionId, e)
    ensures allowed != [] ==> e in allowed
    ensures var stretchMat := sectionId == "stretch" && CountIn(counts, sectionId, "mat") > 0;
            var onPrimary := CountIn(counts, sectionId, Primary(allowed)) > 0;
            var onSecondary := Active(Secondary(allowed)) && CountIn(counts, sectionId, allowed[1]) > 0;
            var onMat := CountIn(counts, sectionId, "mat") > 0;
            && (stretchMat ==> e == "mat")
            && (!stretchMat && onPrimary ==> e == Primary(allowed))
            && (!stretchMat && !onPrimary && onSecondary ==> e == allowed[1])
            && (!stretchMat && !onPrimary && !onSecondary && onMat ==> e == "mat")
            && (!onPrimary && !onSecondary && !onMat && !NoCounts(counts, sectionId) ==>
                  FirstMax(TallyFor(counts, sectionId), e))
            && (NoCounts(counts, sectionId) ==> e == Primary(allowed))
  {
    var t := TallyFor(counts, sectionId);
    if sectionId == "stretch" && Get(t, "mat") > 0 then "mat"
    else if Get(t, Primary(allowed)) > 0 then Primary(allowed)
    else if Active(Secondary(allowed)) && Get(t, allowed[1]) > 0 then allowed[1]
    else if Get(t, "mat") > 0 then "mat"
    else if t != [] then MaxKey(t)
    else Primary(allowed)
  }

  /** The initial pass: every section gets its default equipment. */
  method InitialAllocation(ordered: seq<Section>, counts: SectionCounts, allowed: seq<string>)
    returns (allocations: seq<string>)
    requires CountsWellFormed(counts, allowed)
    ensures |allocations| == |ordered|
    ensures forall i :: 0 <= i < |ordered| ==> allocations[i] == DefaultEquipment(counts, ordered[i].id, allowed)
    ensures AllExecutable(ordered, counts, allocations) && AllAllowed(allocations, allowed)
  {
    ghost var defaults := seq(|ordered|, k requires 0 <= k < |ordered| => DefaultEquipment(counts, ordered[k].id, allowed));
    allocations := [];
    var i := 0;
    while i < |ordered|
      invariant 0 <= i <= |ordered| && allocations == defaults[..i]
    {
      TakeSnoc(defaults, i);
      allocations := allocations + [DefaultEquipment(counts, ordered[i].id, allowed)];
      i := i + 1;
    }
    assert allocations == defaults;
    DefaultsUsable(ordered, counts, allowed, allocations);
  }

  /** The default equipment of every section can fill it and is allowed. */
  lemma DefaultsUsable(ordered: seq<Section>, counts: SectionCounts, allowed: seq<string>, allocations: seq<string>)
    requires CountsWellFormed(counts, allowed) && |allocations| == |ordered|
    requires forall i :: 0 <= i < |ordered| ==> allocations[i] == DefaultEquipment(counts, ordered[i].id, allowed)
    ensures AllExecutable(ordered, counts, allocations) && AllAllowed(allocations, allowed)
  {
    forall i | 0 <= i < |ordered|
      ensures Executable(counts, ordered[i].id, allocations[i])
      ensures allowed != [] ==> allocations[i] in allowed
    {
      var e := DefaultEquipment(counts, ordered[i].id, allowed);
    }
  }

  /** Position `i` may join the secondary run: not the first section, not stretch, has a secondary exercise. */
  predicate IsEligible(ordered: seq<Section>, counts: SectionCounts, secondary: string, i: int)
  {
    0 < i < |ordered| && ordered[i].id != "stretch" && CountIn(counts, ordered[i].id, secondary) >= 1
  }

  /** The eligible positions below `n`, in increasing order. */
  function EligibleList(ordered: seq<Section>, counts: SectionCounts, secondary: string, n: nat): (r: seq<nat>)
    requires n <= |ordered|
    ensures StrictlyIncreasing(r)
    ensures forall i :: i in r <==> i < n && IsEligible(ordered, counts, secondary, i)
  {
    if n == 0 then []
    else
      var front := EligibleList(ordered, counts, secondary, n - 1);
      if IsEligible(ordered, counts, secondary, n - 1) then
        assert forall a :: 0 <= a < |front| ==> front[a] in front;
        front + [n - 1]
      else front
  }

  /** `secondary_eligible`, in increasing order (so the source's sort leaves it unchanged). */
  method SecondaryEligible(ordered: seq<Section>, counts: SectionCounts, secondary: string)
    returns (eligible: seq<nat>)
    ensures eligible == EligibleList(ordered, counts, secondary, |ordered|)
    ensures StrictlyIncreasing(eligible)
    ensures forall i :: i in eligible <==> IsEligible(ordered, counts, secondary, i)
  {
    eligible := [];
    var i := 0;
    while i < |ordered|
      invariant 0 <= i <= |ordered|
      invariant eligible == EligibleList(ordered, counts, secondary, i)
    {
      if i != 0 && ordered[i].id != "stretch" && CountIn(counts, ordered[i].id, secondary) >= 1 {
        eligible := eligible + [i];
      }
      i := i + 1;
    }
  }

  /** `eligible_starts`: the eligible positions at or after the minimum start, in order. */
  function StartsFrom(eligible: seq<nat>, minStart: nat): (r: seq<nat>)
    ensures forall x :: x in r <==> x in eligible && x >= minStart
  {
    Filter(eligible, (i: nat) => i >= minStart)
  }

  /**
   * `num_secondary`: `randint(4, min(6, n))` on a high-variety roll, else
   * `randint(3, min(5, n))`; the draw fails when fewer sections are eligible
   * than the lower bound.
   */
  function NumSecondary(patternRoll: real, eligibleCount: nat, span: nat): (r: Result<nat, AllocError>)
    ensures var low := if patternRoll > 0.55 then 4 else 3;
            var high := Min(if patternRoll > 0.55 then 6 else 5, eligibleCount);
            && (r.Failure? <==> eligibleCount < low)
            && (r.Success? ==> low <= r.value <= high)
  {
    var low := if patternRoll > 0.55 then 4 else 3;
    var high := Min(if patternRoll > 0.55 then 6 else 5, eligibleCount);
    if low > high then Failure(EmptyRandintRange(low, high))
    else Success(low + span % (high - low + 1))
  }

  /** `max(1, int(n_sections * 0.3))`. */
  function MinStart(sectionCount: nat): nat
  {
    if sectionCount * 3 / 10 > 1 then sectionCount * 3 / 10 else 1
  }

  /**
   * The start of the run: the earliest candidate when there are at most two;
   * otherwise, on an early roll, one of the first half (plus one), else any.
   */
  function ChooseStart(starts: seq<nat>, earlyRoll: real, pick: nat): (start: nat)
    requires starts != []
    ensures start in starts
    ensures |starts| <= 2 ==> start == starts[0]
    ensures |starts| > 2 && earlyRoll < 0.7 ==> start in starts[..|starts| / 2 + 1]
  {
    if |starts| > 2 then
      if earlyRoll < 0.7 then starts[pick % (|starts| / 2 + 1)]
      else starts[pick % |starts|]
    else starts[0]
  }

  /** `consecutive`: the longest run of consecutive eligible indices beginning at `start`. */
  method ConsecutiveRun(eligible: seq<nat>, start: nat) returns (run: seq<nat>)
    requires StrictlyIncreasing(eligible) && start in eligible
    ensures |run| >= 1
    ensures forall k :: 0 <= k < |run| ==> run[k] == start + k && run[k] in eligible
    ensures start + |run| !in eligible
  {
    run := [start];
    var j := 0;
    while j < |eligible|
      invariant 0 <= j <= |eligible|
      invariant |run| >= 1
      invariant forall k :: 0 <= k < |run| ==> run[k] == start + k && run[k] in eligible
      invariant forall m :: 0 <= m < j ==> eligible[m] <= run[|run| - 1]
    {
      var next := eligible[j];
      if next > start && next == run[|run| - 1] + 1 {
        run := run + [next];
      } else if next > run[|run| - 1] + 1 {
        assert forall m :: j <= m < |eligible| ==> eligible[m] > run[|run| - 1] + 1;
        break;
      }
      j := j + 1;
    }
  }

  /** The cascade for a section after the secondary run; `keep` stays when nothing is usable. */
  function PostSecondaryEquipment(counts: SectionCounts, sectionId: string, allowed: seq<string>,
                                  secondary: string, keep: string): (e: string)
    requires CountsWellFormed(counts, allowed)
    requires secondary in allowed
    ensures Executable(counts, sectionId, e) || e == keep
    ensures !NoCounts(counts, sectionId) ==> CountIn(counts, sectionId, e) > 0
    ensures e == keep || e in allowed
    ensures var onMat := "mat" in allowed && CountIn(counts, sectionId, "mat") > 0;
            var onSecondary := CountIn(counts, sectionId, secondary) > 0;
            var onPrimary := CountIn(counts, sectionId, Primary(allowed)) > 0;
            && (onMat ==> e == "mat")
            && (!onMat && onSecondary ==> e == secondary)
            && (!onMat && !onSecondary && onPrimary ==> e == Primary(allowed))
            && (!onMat && !onSecondary && !onPrimary && !NoCounts(counts, sectionId) ==>
                  FirstMax(TallyFor(counts, sectionId), e))
            && (NoCounts(counts, sectionId) ==> e == keep)
  {
    var t := TallyFor(counts, sectionId);
    if "mat" in allowed && Get(t, "mat") > 0 then "mat"
    else if Get(t, secondary) > 0 then secondary
    else if Get(t, Primary(allowed)) > 0 then Primary(allowed)
    else if t != [] then MaxKey(t)
    else keep
  }

  /** The lower bound of `randint` for the run length. */
  function RunLow(patternRoll: real): nat
  {
    if patternRoll > 0.55 then 4 else 3
  }

  /** How many positions may join the secondary run. */
  ghost function EligibleCount(ordered: seq<Section>, counts: SectionCounts, secondary: string): nat
  {
    |set i | 0 <= i < |ordered| && IsEligible(ordered, counts, secondary, i)|
  }

  /**
   * A secondary run: at most six consecutive eligible positions, none before
   * the minimum start.
   */
  ghost predicate ValidRun(ordered: seq<Section>, counts: SectionCounts, secondary: string, run: seq<nat>)
  {
    && 0 < |run| <= 6
    && run[0] >= MinStart(|ordered|)
    && (forall k :: 0 <= k < |run| ==> run[k] == run[0] + k)
    && (forall k :: 0 <= k < |run| ==> IsEligible(ordered, counts, secondary, run[k]))
  }

  /**
   * `run` is a run the secondary step can make on these draws: the secondary
   * is in use, the run is valid, and a run shorter than the drawn minimum
   * stops only because the next position is not eligible.
   */
  ghost predicate SecondaryRunOf(ordered: seq<Section>, counts: SectionCounts, allowed: seq<string>,
                                 draws: AllocationDraws, run: seq<nat>)
  {
    && Active(Secondary(allowed)) && draws.patternRoll > 0.10
    && ValidRun(ordered, counts, allowed[1], run)
    && (|run| < RunLow(draws.patternRoll) ==> !IsEligible(ordered, counts, allowed[1], run[0] + |run|))
  }

  /**
   * `run` is exactly the run drawn: empty when the secondary is not used on this
   * draw, when no position is eligible or when none is at or after the minimum
   * start; otherwise it begins at the chosen start and holds the consecutive
   * eligible positions from there, as many as the drawn length allows.
   */
  ghost predicate RunDrawn(ordered: seq<Section>, counts: SectionCounts, allowed: seq<string>,
                           draws: AllocationDraws, run: seq<nat>)
  {
    if !(Active(Secondary(allowed)) && draws.patternRoll > 0.10) then run == []
    else
      var eligible := EligibleList(ordered, counts, allowed[1], |ordered|);
      var drawn := NumSecondary(draws.patternRoll, |eligible|, draws.span);
      var starts := StartsFrom(eligible, MinStart(|ordered|));
      if eligible == [] || drawn.Failure? || starts == [] then run == []
      else RunAt(eligible, ChooseStart(starts, draws.earlyRoll, draws.pick), drawn.value, run)
  }

  /**
   * `run` starts at `start` and holds the consecutive eligible positions from
   * there, at most `n` of them and fewer only when the next is not eligible.
   */
  ghost predicate RunAt(eligible: seq<nat>, start: nat, n: nat, run: seq<nat>)
  {
    && run != []
    && run[0] == start
    && |run| <= n
    && (forall k :: 0 <= k < |run| ==> run[k] == run[0] + k && run[k] in eligible)
    && (|run| < n ==> run[0] + |run| !in eligible)
  }

  /**
   * The positions moved to the secondary equipment: empty when the secondary is
   * not used on this draw or no start qualifies; a failure when the run-length
   * draw has an empty range.
   */
  method ChooseSecondaryRun(ordered: seq<Section>, counts: SectionCounts, allowed: seq<string>, draws: AllocationDraws)
    returns (r: Result<seq<nat>, AllocError>)
    ensures r.Failure? <==>
              && Active(Secondary(allowed)) && draws.patternRoll > 0.10
              && 0 < EligibleCount(ordered, counts, allowed[1]) < RunLow(draws.patternRoll)
    ensures !(Active(Secondary(allowed)) && draws.patternRoll > 0.10) ==> r == Success([])
    ensures r.Success? && r.value != [] ==> SecondaryRunOf(ordered, counts, allowed, draws, r.value)
    ensures r.Success? ==> RunDrawn(ordered, counts, allowed, draws, r.value)
  {
    if !(Active(Secondary(allowed)) && draws.patternRoll > 0.10) {
      return Success([]);
    }
    var secondary := allowed[1];
    var eligible := SecondaryEligible(ordered, counts, secondary);
    EligibleListCount(ordered, counts, secondary, eligible);
    if eligible == [] {
      return Success([]);
    }
    var drawn := NumSecondary(draws.patternRoll, |eligible|, draws.span);
    if drawn.Failure? {
      return Failure(drawn.error);
    }
    var numSecondary := drawn.value;
    var minStart := MinStart(|ordered|);
    var starts := StartsFrom(eligible, minStart);
    if starts == [] {
      return Success([]);
    }
    var run := RunFromStart(ordered, counts, allowed, draws, eligible, starts, numSecondary);
    return Success(run);
  }

  /**
   * The run itself once the length is drawn: a start drawn among the
   * qualifying eligible positions, and the consecutive eligible positions
   * from there, as many as the length allows.
   */
  method RunFromStart(ordered: seq<Section>, counts: SectionCounts, allowed: seq<string>, draws: AllocationDraws,
                      eligible: seq<nat>, starts: seq<nat>, numSecondary: nat) returns (run: seq<nat>)
    requires Active(Secondary(allowed)) && draws.patternRoll > 0.10
    requires StrictlyIncreasing(eligible)
    requires forall i :: i in eligible <==> IsEligible(ordered, counts, allowed[1], i)
    requires starts == StartsFrom(eligible, MinStart(|ordered|)) && starts != []
    requires RunLow(draws.patternRoll) <= numSecondary <= 6
    ensures SecondaryRunOf(ordered, counts, allowed, draws, run)
    ensures RunAt(eligible, ChooseStart(starts, draws.earlyRoll, draws.pick), numSecondary, run)
  {
    var start := ChooseStart(starts, draws.earlyRoll, draws.pick);
    var consecutive := ConsecutiveRun(eligible, start);
    RunPrefix(ordered, counts, allowed, draws, eligible, consecutive, numSecondary);
    run := consecutive[..Min(numSecondary, |consecutive|)];
  }

  /** The first `n` positions of a maximal consecutive eligible run form a secondary run. */
  lemma RunPrefix(ordered: seq<Section>, counts: SectionCounts, allowed: seq<string>, draws: AllocationDraws,
                  eligible: seq<nat>, consecutive: seq<nat>, n: nat)
    requires Active(Secondary(allowed)) && draws.patternRoll > 0.10
    requires forall i :: i in eligible <==> IsEligible(ordered, counts, allowed[1], i)
    requires |consecutive| >= 1 && consecutive[0] >= MinStart(|ordered|)
    requires forall k :: 0 <= k < |consecutive| ==> consecutive[k] == consecutive[0] + k && consecutive[k] in eligible
    requires consecutive[0] + |consecutive| !in eligible
    requires RunLow(draws.patternRoll) <= n <= 6
    ensures SecondaryRunOf(ordered, counts, allowed, draws, consecutive[..Min(n, |consecutive|)])
    ensures RunAt(eligible, consecutive[0], n, consecutive[..Min(n, |consecutive|)])
  {
    var run := consecutive[..Min(n, |consecutive|)];
    assert run[0] == consecutive[0];
    forall k | 0 <= k < |run| ensures run[k] == run[0] + k && run[k] in eligible {
      assert run[k] == consecutive[k];
    }
  }

  /** Every position of `run` takes the secondary equipment; the others keep theirs. */
  method AssignRun(allocations: seq<string>, run: seq<nat>, secondary: string) returns (result: seq<string>)
    requires forall k :: 0 <= k < |run| ==> run[k] < |allocations|
    ensures |result| == |allocations|
    ensures forall i :: 0 <= i < |result| ==> result[i] == if i in run then secondary else allocations[i]
  {
    result := allocations;
    var k := 0;
    while k < |run|
      invariant 0 <= k <= |run| && |result| == |allocations|
      invariant forall i :: 0 <= i < |result| ==> result[i] == if i in run[..k] then secondary else allocations[i]
    {
      assert run[..k + 1] == run[..k] + [run[k]];
      result := result[run[k] := secondary];
      k := k + 1;
    }
    assert run[..k] == run;
  }

  /** Every position from `from` on is re-assigned by the post-run cascade. */
  method ReassignAfter(allocations: seq<string>, from: nat, ordered: seq<Section>, counts: SectionCounts,
                       allowed: seq<string>, secondary: string) returns (result: seq<string>)
    requires |allocations| == |ordered|
    requires CountsWellFormed(counts, allowed) && secondary in allowed
    ensures |result| == |allocations|
    ensures forall i :: 0 <= i < from && i < |result| ==> result[i] == allocations[i]
    ensures forall i :: from <= i < |result| ==>
              result[i] == PostSecondaryEquipment(counts, ordered[i].id, allowed, secondary, allocations[i])
    ensures AllExecutable(ordered, counts, allocations) ==> AllExecutable(ordered, counts, result)
    ensures AllAllowed(allocations, allowed) ==> AllAllowed(result, allowed)
  {
    result := allocations;
    var i := from;
    while i < |result|
      invariant from <= i || |result| <= from
      invariant |result| == |allocations|
      invariant forall j :: 0 <= j < |result| && !(from <= j < i) ==> result[j] == allocations[j]
      invariant forall j :: from <= j < i && j < |result| ==>
                  result[j] == PostSecondaryEquipment(counts, ordered[j].id, allowed, secondary, allocations[j])
    {
      result := result[i := PostSecondaryEquipment(counts, ordered[i].id, allowed, secondary, allocations[i])];
      i := i + 1;
    }
  }

  /**
   * Moves the run to the secondary equipment and re-assigns every section
   * after it; the sections before the run keep their equipment.
   */
  method ApplyRun(allocations: seq<string>, run: seq<nat>, ordered: seq<Section>, counts: SectionCounts,
                  allowed: seq<string>, draws: AllocationDraws) returns (result: seq<string>)
    requires CountsWellFormed(counts, allowed)
    requires AllExecutable(ordered, counts, allocations) && AllAllowed(allocations, allowed)
    requires SecondaryRunOf(ordered, counts, allowed, draws, run)
    ensures AllExecutable(ordered, counts, result) && AllAllowed(result, allowed)
    ensures forall k :: 0 <= k < |run| ==> result[run[k]] == allowed[1]
    ensures forall i :: 0 <= i < run[0] ==> result[i] == allocations[i]
    ensures forall i :: 0 <= i < |ordered| ==>
              result[i] == if i in run then allowed[1]
                           else if i > run[|run| - 1] then
                             PostSecondaryEquipment(counts, ordered[i].id, allowed, allowed[1], allocations[i])
                           else allocations[i]
  {
    var secondary := allowed[1];
    var withRun := AssignRun(allocations, run, secondary);
    RunUsable(allocations, withRun, run, ordered, counts, allowed);
    var last := run[|run| - 1];
    result := ReassignAfter(withRun, last + 1, ordered, counts, allowed, secondary);
    RunPlacement(allocations, withRun, result, run, ordered, counts, allowed);
  }

  /** Moving the positions of a valid run to the secondary keeps every section fillable and allowed. */
  lemma RunUsable(allocations: seq<string>, withRun: seq<string>, run: seq<nat>, ordered: seq<Section>,
                  counts: SectionCounts, allowed: seq<string>)
    requires CountsWellFormed(counts, allowed) && |allowed| > 1
    requires AllExecutable(ordered, counts, allocations) && AllAllowed(allocations, allowed)
    requires ValidRun(ordered, counts, allowed[1], run)
    requires |withRun| == |allocations|
    requires forall i :: 0 <= i < |withRun| ==> withRun[i] == if i in run then allowed[1] else allocations[i]
    ensures AllExecutable(ordered, counts, withRun) && AllAllowed(withRun, allowed)
  {
    forall i | 0 <= i < |ordered| && i in run
      ensures Executable(counts, ordered[i].id, withRun[i]) && withRun[i] in allowed
    {
      var k :| 0 <= k < |run| && run[k] == i;
      assert IsEligible(ordered, counts, allowed[1], run[k]);
    }
  }

  /** Where the run and the cascade after it put the secondary and the cascade's equipment. */
  lemma RunPlacement(allocations: seq<string>, withRun: seq<string>, result: seq<string>, run: seq<nat>,
                     ordered: seq<Section>, counts: SectionCounts, allowed: seq<string>)
    requires CountsWellFormed(counts, allowed) && |allowed| > 1
    requires run != [] && (forall k :: 0 <= k < |run| ==> run[k] == run[0] + k)
    requires |withRun| == |allocations| == |result| == |ordered| && run[|run| - 1] < |ordered|
    requires forall i :: 0 <= i < |withRun| ==> withRun[i] == if i in run then allowed[1] else allocations[i]
    requires forall i :: 0 <= i <= run[|run| - 1] ==> result[i] == withRun[i]
    requires forall i :: run[|run| - 1] < i < |result| ==>
               result[i] == PostSecondaryEquipment(counts, ordered[i].id, allowed, allowed[1], withRun[i])
    ensures forall k :: 0 <= k < |run| ==> result[run[k]] == allowed[1]
    ensures forall i :: 0 <= i < run[0] ==> result[i] == allocations[i]
    ensures forall i :: 0 <= i < |ordered| ==>
              result[i] == if i in run then allowed[1]
                           else if i > run[|run| - 1] then
                             PostSecondaryEquipment(counts, ordered[i].id, allowed, allowed[1], allocations[i])
                           else allocations[i]
  {
    var last := run[|run| - 1];
    forall i | i in run ensures run[0] <= i <= last {
      var k :| 0 <= k < |run| && run[k] == i;
    }
    assert forall k :: 0 <= k < |run| ==> run[k] in run;
  }

  /**
   * The allocation before the linear-flow repair for a given secondary run: the
   * run's sections take the secondary equipment, the sections after it the
   * post-run cascade applied to their default, and the others their default.
   */
  function PlanWith(ordered: seq<Section>, counts: SectionCounts, allowed: seq<string>, run: seq<nat>)
    : (p: seq<string>)
    requires CountsWellFormed(counts, allowed)
    requires run != [] ==> |allowed| > 1
    ensures |p| == |ordered|
  {
    seq(|ordered|, i requires 0 <= i < |ordered| =>
      var d := DefaultEquipment(counts, ordered[i].id, allowed);
      if i in run then allowed[1]
      else if run != [] && i > run[|run| - 1] then PostSecondaryEquipment(counts, ordered[i].id, allowed, allowed[1], d)
      else d)
  }

  /**
   * The allocation before the linear-flow repair. `run` (ghost) is the run of
   * sections moved to the secondary equipment; it is empty when no run was made.
   */
  method PlanAllocations(ordered: seq<Section>, counts: SectionCounts, allowed: seq<string>, draws: AllocationDraws)
    returns (r: Result<seq<string>, AllocError>, ghost run: seq<nat>)
    requires CountsWellFormed(counts, allowed)
    ensures r.Failure? <==>
              && Active(Secondary(allowed)) && draws.patternRoll > 0.10
              && 0 < EligibleCount(ordered, counts, allowed[1]) < RunLow(draws.patternRoll)
    ensures r.Success? ==> AllExecutable(ordered, counts, r.value) && AllAllowed(r.value, allowed)
    ensures r.Success? ==> forall i :: 0 <= i < |ordered| && (run == [] || i < run[0]) ==>
              r.value[i] == DefaultEquipment(counts, ordered[i].id, allowed)
    ensures run != [] ==>
              && r.Success? && SecondaryRunOf(ordered, counts, allowed, draws, run)
              && (forall k :: 0 <= k < |run| ==> r.value[run[k]] == allowed[1])
    ensures r.Success? ==>
              && RunDrawn(ordered, counts, allowed, draws, run)
              && (run != [] ==> |allowed| > 1)
              && r.value == PlanWith(ordered, counts, allowed, run)
  {
    var allocations := InitialAllocation(ordered, counts, allowed);
    var chosen := ChooseSecondaryRun(ordered, counts, allowed, draws);
    if chosen.Failure? {
      return Failure(chosen.error), [];
    }
    run := chosen.value;
    if chosen.value == [] {
      PlanIs(ordered, counts, allowed, run, allocations, allocations);
      return Success(allocations), run;
    }
    var result := ApplyRun(allocations, chosen.value, ordered, counts, allowed, draws);
    PlanIs(ordered, counts, allowed, run, allocations, result);
    r := Success(result);
  }

  /** Defaults overwritten by a run and the post-run cascade are the plan for that run. */
  lemma PlanIs(ordered: seq<Section>, counts: SectionCounts, allowed: seq<string>, run: seq<nat>,
               allocations: seq<string>, result: seq<string>)
    requires CountsWellFormed(counts, allowed) && (run != [] ==> |allowed| > 1)
    requires |allocations| == |result| == |ordered|
    requires forall i :: 0 <= i < |ordered| ==> allocations[i] == DefaultEquipment(counts, ordered[i].id, allowed)
    requires forall i :: 0 <= i < |ordered| ==>
               result[i] == if i in run then allowed[1]
                            else if run != [] && i > run[|run| - 1] then
                              PostSecondaryEquipment(counts, ordered[i].id, allowed, allowed[1], allocations[i])
                            else allocations[i]
    ensures result == PlanWith(ordered, counts, allowed, run)
  {
    var plan := PlanWith(ordered, counts, allowed, run);
    forall i | 0 <= i < |ordered| ensures result[i] == plan[i] {
      var d := allocations[i];
      assert d == DefaultEquipment(counts, ordered[i].id, allowed);
      assert plan[i] == if i in run then allowed[1]
                        else if run != [] && i > run[|run| - 1] then
                          PostSecondaryEquipment(counts, ordered[i].id, allowed, allowed[1], d)
                        else d;
    }
    Pointwise(result, plan);
  }

  /**
   * `_allocate_equipment_blocks`: the planned allocation, then the linear-flow
   * repair. `planned` (ghost) is the allocation before the repair. Every
   * section gets allowed equipment with a usable exercise whenever the section
   * has one; a return to earlier equipment survives only as mat, or where
   * neither the previous equipment nor mat is usable in that section.
   */
  method AllocateEquipmentBlocks(catalog: seq<Exercise>, ordered: seq<Section>, allowed: seq<string>, level: string,
                                 draws: AllocationDraws)
    returns (r: Result<seq<string>, AllocError>, ghost planned: seq<string>, ghost run: seq<nat>)
    ensures r.Failure? <==>
              && Active(Secondary(allowed)) && draws.patternRoll > 0.10
              && 0 < EligibleCount(ordered, ExerciseCounts(catalog, ordered, level, allowed), allowed[1])
                   < RunLow(draws.patternRoll)
    ensures r.Success? ==> |r.value| == |ordered| == |planned|
    ensures r.Success? ==> forall i :: 0 <= i < |ordered| ==> Fills(catalog, ordered[i].id, level, allowed, r.value[i])
    ensures r.Success? && allowed != [] ==> forall i :: 0 <= i < |ordered| ==> r.value[i] in allowed
    ensures r.Success? ==> forall i :: 0 < i < |ordered| && ReturnsAt(r.value, i) ==>
              || r.value[i] == "mat"
              || (&& r.value[i] == planned[i]
                  && !(r.value[i - 1] != "" && r.value[i - 1] in allowed
                       && Usable(catalog, ordered[i].id, level, r.value[i - 1]))
                  && !("mat" in allowed && Usable(catalog, ordered[i].id, level, "mat")))
    ensures r.Success? && Linear(planned) ==> r.value == planned
    ensures r.Success? ==>
              && AllocatedWith(catalog, ordered, allowed, level, draws, run, r.value)
              && planned == PlanWith(ordered, ExerciseCounts(catalog, ordered, level, allowed), allowed, run)
  {
    var counts := ExerciseCounts(catalog, ordered, level, allowed);
    var plan;
    plan, run := PlanAllocations(ordered, counts, allowed, draws);
    if plan.Failure? {
      return Failure(plan.error), [], run;
    }
    planned := plan.value;
    var result := EnforceLinearFlow(plan.value, counts, ordered, allowed);
    LinearRepairSound(plan.value, counts, ordered, allowed);
    RepairKeepsExecutable(result, plan.value, counts, ordered, allowed);
    RepairFills(catalog, ordered, allowed, level, planned, result);
    r := Success(result);
  }

  /**
   * In catalog terms: after the repair every section is filled by its
   * equipment, and a return to earlier equipment is mat or a kept bounce.
   */
  lemma RepairFills(catalog: seq<Exercise>, ordered: seq<Section>, allowed: seq<string>, level: string,
                    planned: seq<string>, result: seq<string>)
    requires |result| == |planned| == |ordered|
    requires AllExecutable(ordered, ExerciseCounts(catalog, ordered, level, allowed), result)
    requires RepairedUpTo(result, planned, ExerciseCounts(catalog, ordered, level, allowed), ordered, allowed, |result|)
    ensures forall i :: 0 <= i < |ordered| ==> Fills(catalog, ordered[i].id, level, allowed, result[i])
    ensures forall i :: 0 < i < |ordered| && ReturnsAt(result, i) ==>
              || result[i] == "mat"
              || (&& result[i] == planned[i]
                  && !(result[i - 1] != "" && result[i - 1] in allowed
                       && Usable(catalog, ordered[i].id, level, result[i - 1]))
                  && !("mat" in allowed && Usable(catalog, ordered[i].id, level, "mat")))
  {
    forall i | 0 <= i < |ordered|
      ensures Fills(catalog, ordered[i].id, level, allowed, result[i])
    {
      assert ordered[i] in ordered;
    }
    forall i | 0 < i < |ordered| && ReturnsAt(result, i)
      ensures || result[i] == "mat"
              || (&& result[i] == planned[i]
                  && !(result[i - 1] != "" && result[i - 1] in allowed
                       && Usable(catalog, ordered[i].id, level, result[i - 1]))
                  && !("mat" in allowed && Usable(catalog, ordered[i].id, level, "mat")))
    {
      assert ordered[i] in ordered;
    }
  }

  /**
   * `allocations` is what the allocation returns on these draws when it drew
   * the secondary run `run`: the linear-flow repair of the plan for that run.
   */
  ghost predicate AllocatedWith(catalog: seq<Exercise>, ordered: seq<Section>, allowed: seq<string>, level: string,
                                draws: AllocationDraws, run: seq<nat>, allocations: seq<string>)
  {
    && RunDrawn(ordered, ExerciseCounts(catalog, ordered, level, allowed), allowed, draws, run)
    && (run != [] ==> |allowed| > 1)
    && allocations
         == LinearRepair(PlanWith(ordered, ExerciseCounts(catalog, ordered, level, allowed), allowed, run),
                         ExerciseCounts(catalog, ordered, level, allowed), ordered, allowed)
  }

  /**
   * `e` is allowed and has a usable exercise in the section, or no allowed
   * equipment has one there.
   */
  ghost predicate Fills(catalog: seq<Exercise>, sectionId: string, level: string, allowed: seq<string>, e: string)
  {
    (e in allowed && Usable(catalog, sectionId, level, e))
    || forall x :: x in allowed ==> !Usable(catalog, sectionId, level, x)
  }

  /** The linear-flow repair keeps every section executable and every assignment allowed. */
  lemma RepairKeepsExecutable(result: seq<string>, planned: seq<string>, counts: SectionCounts,
                              ordered: seq<Section>, allowed: seq<string>)
    requires CountsWellFormed(counts, allowed)
    requires AllExecutable(ordered, counts, planned) && AllAllowed(planned, allowed)
    requires |result| == |planned| && (|result| > 0 ==> result[0] == planned[0])
    requires forall i :: 0 <= i < |result| ==> RepairedAt(result, planned, counts, ordered, allowed, i)
    ensures AllExecutable(ordered, counts, result) && AllAllowed(result, allowed)
  {
    forall i | 0 <= i < |ordered| ensures Executable(counts, ordered[i].id, result[i]) {
      assert RepairedAt(result, planned, counts, ordered, allowed, i);
    }
    if allowed != [] {
      forall i | 0 <= i < |result| ensures result[i] in allowed {
        RepairedAllowed(result, planned, counts, ordered, allowed, i);
      }
    }
  }

  lemma {:induction false} RepairedAllowed(result: seq<string>, planned: seq<string>, counts: SectionCounts,
                                           ordered: seq<Section>, allowed: seq<string>, i: nat)
    requires CountsWellFormed(counts, allowed)
    requires |result| == |planned| <= |ordered| && AllAllowed(planned, allowed) && allowed != []
    requires forall k :: 0 <= k < |result| ==> RepairedAt(result, planned, counts, ordered, allowed, k)
    requires i < |result|
    ensures result[i] in allowed
  {
    assert RepairedAt(result, planned, counts, ordered, allowed, i);
    if result[i] != planned[i] && !(result[i] == "mat" && "mat" in allowed) {
      RepairedAllowed(result, planned, counts, ordered, allowed, i - 1);
    }
  }

  /** The eligible list holds exactly the eligible positions, so its length is their number. */
  lemma EligibleListCount(ordered: seq<Section>, counts: SectionCounts, secondary: string, eligible: seq<nat>)
    requires StrictlyIncreasing(eligible)
    requires forall i :: i in eligible <==> IsEligible(ordered, counts, secondary, i)
    ensures |eligible| == EligibleCount(ordered, counts, secondary)
  {
    var s := set i | 0 <= i < |ordered| && IsEligible(ordered, counts, secondary, i);
    assert s == Elements(eligible);
    DistinctCardinality(eligible);
  }

  /** The positions listed in `s`. */
  function Elements(s: seq<nat>): set<nat>
  {
    set x | x in s
  }

  lemma {:induction false} DistinctCardinality(s: seq<nat>)
    requires StrictlyIncreasing(s)
    ensures |Elements(s)| == |s|
  {
    if s != [] {
      var tail := s[1..];
      DistinctCardinality(tail);
      assert Elements(s) == Elements(tail) + {s[0]};
      assert forall k :: 0 <= k < |tail| ==> tail[k] == s[k + 1] > s[0];
    }
  }
}
