/**
 * Filling one section: the candidate order (shuffle, then same-spring first)
 * and the selection loop with its transition bookkeeping, together with
 * reference definitions of what that bookkeeping tracks over the exercises
 * emitted so far.
 */
module Selection {
  import opened Util
  import opened Catalog
  import opened Plans

  /**
   * `random.shuffle` with its draws supplied: each step moves the element at
   * `picks[k] % remaining` to the front of what is left.
   */
  function Shuffle<T>(xs: seq<T>, picks: seq<nat>): (r: seq<T>)
    ensures multiset(r) == multiset(xs)
    decreases |xs|
  {
    if xs == [] then []
    else
      var k := (if picks == [] then 0 else picks[0]) % |xs|;
      var rest := xs[..k] + xs[k + 1..];
      assert xs == xs[..k] + [xs[k]] + xs[k + 1..];
      [xs[k]] + Shuffle(rest, if picks == [] then [] else picks[1..])
  }

  /** Removing position `k` removes one occurrence of its element. */
  lemma RemoveAtMultiset<T>(xs: seq<T>, k: nat)
    requires k < |xs|
    ensures multiset(xs[..k] + xs[k + 1..]) == multiset(xs) - multiset{xs[k]}
  {
    assert xs == xs[..k] + [xs[k]] + xs[k + 1..];
  }

  /** Every ordering of `xs` is the outcome of some draws, so the oracle covers `random.shuffle`. */
  lemma {:induction false} ShuffleReachesAll<T>(xs: seq<T>, target: seq<T>) returns (picks: seq<nat>)
    requires multiset(target) == multiset(xs)
    ensures Shuffle(xs, picks) == target
    decreases |xs|
  {
    if xs == [] {
      picks := [];
      assert |target| == |multiset(target)| == 0;
      return;
    }
    assert |target| == |multiset(target)| == |xs| > 0;
    assert target[0] in xs by {
      assert target[0] in multiset(target);
    }
    var k := IndexOf(xs, target[0]);
    var rest := xs[..k] + xs[k + 1..];
    RemoveMatching(xs, target, k);
    var more := ShuffleReachesAll(rest, target[1..]);
    picks := [k] + more;
    ShuffleStep(xs, picks, k, more);
    assert target == [target[0]] + target[1..];
  }

  /** Removing matching first choices from two permutations of each other leaves permutations. */
  lemma RemoveMatching<T>(xs: seq<T>, target: seq<T>, k: nat)
    requires multiset(target) == multiset(xs) && target != [] && k < |xs| && xs[k] == target[0]
    ensures multiset(xs[..k] + xs[k + 1..]) == multiset(target[1..])
  {
    RemoveAtMultiset(xs, k);
    TailMultiset(target);
  }

  lemma TailMultiset<T>(s: seq<T>)
    requires s != []
    ensures multiset(s[1..]) == multiset(s) - multiset{s[0]}
  {
    assert s == [s[0]] + s[1..];
  }

  /** One step of the shuffle with an in-range first draw. */
  lemma ShuffleStep<T>(xs: seq<T>, picks: seq<nat>, k: nat, more: seq<nat>)
    requires k < |xs| && picks == [k] + more
    ensures Shuffle(xs, picks) == [xs[k]] + Shuffle(xs[..k] + xs[k + 1..], more)
  {
    assert picks[0] == k && picks[1..] == more;
    SmallRemainder(k, |xs|);
  }

  lemma SmallRemainder(k: nat, n: nat)
    requires k < n
    ensures k % n == k
  {
  }

  /** The sort key of `spring_priority`: 1 when a last spring is known and this exercise's differs. */
  predicate DiffersFromLast(ex: Exercise, onEquipment: string, lastSpring: Option<string>)
  {
    lastSpring.Some? && lastSpring.value != "" && EffectiveSpring(ex, onEquipment) != lastSpring.value
  }

  /**
   * The candidate order: shuffled, then stably sorted so exercises keeping the
   * last spring setting come first. The random tie-breaker of the sort key only
   * reorders within each group, which the shuffle draws already cover.
   */
  function Arrange(available: seq<Exercise>, picks: seq<nat>, onEquipment: string, lastSpring: Option<string>)
    : (r: seq<Exercise>)
    ensures multiset(r) == multiset(available)
    ensures forall i, j :: 0 <= i < j < |r| && DiffersFromLast(r[i], onEquipment, lastSpring) ==>
              DiffersFromLast(r[j], onEquipment, lastSpring)
  {
    Partition(Shuffle(available, picks), ex => DiffersFromLast(ex, onEquipment, lastSpring))
  }

  /** Every same-spring-first ordering of the candidates is produced by some draws. */
  lemma ArrangeReachesAll(available: seq<Exercise>, onEquipment: string, lastSpring: Option<string>,
                          target: seq<Exercise>) returns (picks: seq<nat>)
    requires multiset(target) == multiset(available)
    requires forall i, j :: 0 <= i < j < |target| && DiffersFromLast(target[i], onEquipment, lastSpring) ==>
               DiffersFromLast(target[j], onEquipment, lastSpring)
    ensures Arrange(available, picks, onEquipment, lastSpring) == target
  {
    picks := ShuffleReachesAll(available, target);
    PartitionOfPartitioned(target, ex => DiffersFromLast(ex, onEquipment, lastSpring));
  }

  /** Partitioning a sequence that is already partitioned changes nothing. */
  lemma {:induction false} PartitionOfPartitioned<T(!new)>(xs: seq<T>, p: T -> bool)
    requires forall i, j :: 0 <= i < j < |xs| && p(xs[i]) ==> p(xs[j])
    ensures Partition(xs, p) == xs
  {
    if xs == [] {
    } else if p(xs[0]) {
      forall x | x in xs ensures p(x) {
        var j :| 0 <= j < |xs| && xs[j] == x;
        if j > 0 {
          assert p(xs[0]) ==> p(xs[j]);
        }
      }
      FilterAll(xs, p);
      FilterNone(xs, x => !p(x));
    } else {
      PartitionOfPartitioned(xs[1..], p);
      assert Reject(xs, p) == [xs[0]] + Reject(xs[1..], p);
      assert Filter(xs, p) == Filter(xs[1..], p);
    }
  }

  // ---- What the bookkeeping tracks, defined over the exercises emitted so far.

  /**
   * `last_spring` after the exercises `es`: the most recent non-empty spring
   * setting since the last equipment change, if any.
   */
  function LastSpring(es: seq<PlanExercise>): (r: Option<string>)
    ensures r.Some? ==> r.value != ""
  {
    if es == [] then None
    else
      var prev, e := es[..|es| - 1], es[|es| - 1];
      if e.springSetting != "" then Some(e.springSetting)
      else if prev != [] && prev[|prev| - 1].equipment == e.equipment then LastSpring(prev)
      else None
  }

  /**
   * Exercise `k` is a spring transition: not the first of the class, on the same
   * equipment as the one before, with a spring setting other than the last one.
   */
  predicate SpringChangeAt(es: seq<PlanExercise>, k: int)
    requires 0 <= k < |es|
  {
    && k > 0
    && es[k].equipment == es[k - 1].equipment
    && es[k].springSetting != ""
    && LastSpring(es[..k]) != Some(es[k].springSetting)
  }

  /** The number of spring transitions in `es`. */
  function SpringChanges(es: seq<PlanExercise>): (n: nat)
    ensures n <= |es|
    ensures |es| <= 1 ==> n == 0
  {
    if es == [] then 0
    else SpringChanges(es[..|es| - 1]) + (if SpringChangeAt(es, |es| - 1) then 1 else 0)
  }

  /** `equipment_flow`: the equipment of every exercise that starts a new equipment block. */
  function FlowOf(es: seq<PlanExercise>): (flow: seq<string>)
    ensures |flow| <= |es|
    ensures es != [] ==> flow != [] && flow[|flow| - 1] == es[|es| - 1].equipment
    ensures forall i :: 0 < i < |flow| ==> flow[i] != flow[i - 1]
  {
    if es == [] then []
    else
      var prev, e := es[..|es| - 1], es[|es| - 1];
      if prev != [] && prev[|prev| - 1].equipment == e.equipment then FlowOf(prev)
      else FlowOf(prev) + [e.equipment]
  }

  /** The attempt's running state: spring transitions counted, equipment flow, current equipment, last spring. */
  datatype Tracker = Tracker(
    transitions: int,
    flow: seq<string>,
    current: Option<string>,
    lastSpring: Option<string>,
    isFirst: bool)

  /** The state before the first section. */
  const Initial: Tracker := Tracker(0, [], None, None, true)

  /** Counted transitions stop at the limit (and never go below zero). */
  function Cap(maxTransitions: int): nat
  {
    if maxTransitions > 0 then maxTransitions else 0
  }

  /**
   * `st` is the state after emitting `es`: the counter holds the spring
   * transitions up to the limit, and flow, current equipment and last spring
   * are those of `es`.
   */
  ghost predicate Tracks(st: Tracker, es: seq<PlanExercise>, maxTransitions: int)
  {
    && st.isFirst == (es == [])
    && st.current == (if es == [] then None else Some(es[|es| - 1].equipment))
    && st.lastSpring == LastSpring(es)
    && st.flow == FlowOf(es)
    && st.transitions == Min(SpringChanges(es), Cap(maxTransitions))
  }

  /** The state before the first section tracks the empty class. */
  lemma InitialTracks(maxTransitions: int)
    ensures Tracks(Initial, [], maxTransitions)
  {
  }

  /** Appending one exercise unfolds the last-spring definition one step. */
  lemma LastSpringSnoc(es: seq<PlanExercise>, e: PlanExercise)
    ensures LastSpring(es + [e]) ==
              if e.springSetting != "" then Some(e.springSetting)
              else if es != [] && es[|es| - 1].equipment == e.equipment then LastSpring(es)
              else None
  {
    assert (es + [e])[..|es|] == es;
  }

  /** Appending one exercise unfolds the flow definition one step. */
  lemma FlowOfSnoc(es: seq<PlanExercise>, e: PlanExercise)
    ensures FlowOf(es + [e]) ==
              if es != [] && es[|es| - 1].equipment == e.equipment then FlowOf(es) else FlowOf(es) + [e.equipment]
  {
    assert (es + [e])[..|es|] == es;
  }

  /** Appending one exercise adds one spring transition exactly when it is one. */
  lemma SpringChangesSnoc(es: seq<PlanExercise>, e: PlanExercise)
    ensures SpringChanges(es + [e]) ==
              SpringChanges(es) +
              (if && es != [] && es[|es| - 1].equipment == e.equipment
                  && e.springSetting != "" && LastSpring(es) != Some(e.springSetting) then 1 else 0)
  {
    assert (es + [e])[..|es|] == es;
  }

  /**
   * Taking exercise `e` with the source's bookkeeping keeps the state in step
   * with the emitted exercises.
   */
  lemma TakeKeepsTracking(prior: Tracker, es: seq<PlanExercise>, e: PlanExercise, maxTransitions: int, after: Tracker)
    requires Tracks(prior, es, maxTransitions)
    requires !after.isFirst && after.current == Some(e.equipment)
    requires after.flow == if prior.current != Some(e.equipment) then prior.flow + [e.equipment] else prior.flow
    requires after.lastSpring ==
               if e.springSetting != "" then Some(e.springSetting)
               else if prior.current != Some(e.equipment) then None
               else prior.lastSpring
    requires after.transitions ==
               if && !prior.isFirst && prior.current == Some(e.equipment)
                  && e.springSetting != "" && prior.lastSpring != Some(e.springSetting)
                  && prior.transitions < maxTransitions
               then prior.transitions + 1 else prior.transitions
    ensures Tracks(after, es + [e], maxTransitions)
  {
    LastSpringSnoc(es, e);
    FlowOfSnoc(es, e);
    SpringChangesSnoc(es, e);
  }

  /** `selected` are the entries of the candidates at the increasing positions `taken`, all before `bound`. */
  ghost predicate TakenFrom(selected: seq<PlanExercise>, taken: seq<nat>, candidates: seq<Exercise>,
                            onEquipment: string, bound: int)
  {
    && |taken| == |selected| && StrictlyIncreasing(taken)
    && forall k :: 0 <= k < |taken| ==>
         taken[k] < bound && taken[k] < |candidates| && selected[k] == Entry(candidates[taken[k]], onEquipment)
  }

  /** Taking candidate `j` extends the taken positions. */
  lemma TakenFromSnoc(selected: seq<PlanExercise>, taken: seq<nat>, candidates: seq<Exercise>, onEquipment: string,
                      j: nat)
    requires TakenFrom(selected, taken, candidates, onEquipment, j) && j < |candidates|
    ensures TakenFrom(selected + [Entry(candidates[j], onEquipment)], taken + [j], candidates, onEquipment, j + 1)
  {
  }

  /**
   * A candidate the transition limit holds back once its section has an
   * exercise: the counter has reached the limit and the candidate would change
   * the spring setting.
   */
  predicate Capped(es: seq<PlanExercise>, ex: Exercise, onEquipment: string, maxTransitions: int)
  {
    && Min(SpringChanges(es), Cap(maxTransitions)) >= maxTransitions
    && EffectiveSpring(ex, onEquipment) != ""
    && LastSpring(es) != Some(EffectiveSpring(ex, onEquipment))
  }

  /** The tracker's view of the cap agrees with the cap on the class so far. */
  lemma SkipIsCapped(st: Tracker, es: seq<PlanExercise>, ex: Exercise, onEquipment: string, maxTransitions: int)
    requires Tracks(st, es, maxTransitions)
    ensures Capped(es, ex, onEquipment, maxTransitions)
            <==> && st.transitions >= maxTransitions && EffectiveSpring(ex, onEquipment) != ""
                 && st.lastSpring != Some(EffectiveSpring(ex, onEquipment))
  {
  }

  /**
   * The selection rule, over the candidates still to consider, with `before`
   * already selected in the section after the class's `emitted` exercises:
   * stop once the time is used up and the section has an exercise; always
   * take the section's first candidate; take a later one when it fits the
   * remaining time and the transition limit does not hold it back; pass over
   * it otherwise.
   */
  function Greedy(emitted: seq<PlanExercise>, candidates: seq<Exercise>, onEquipment: string, budget: real,
                  maxTransitions: int, before: seq<PlanExercise>): (r: seq<PlanExercise>)
    ensures |before| <= |r| <= |before| + |candidates|
    decreases |candidates|
  {
    if candidates == [] then before
    else
      var ex, remaining := candidates[0], budget - TotalSeconds(before);
      if remaining <= 0.0 && before != [] then before
      else if || before == []
              || (ex.durationSeconds as real <= remaining && !Capped(emitted + before, ex, onEquipment, maxTransitions))
      then Greedy(emitted, candidates[1..], onEquipment, budget, maxTransitions, before + [Entry(ex, onEquipment)])
      else Greedy(emitted, candidates[1..], onEquipment, budget, maxTransitions, before)
  }

  /** What was selected before stays selected. */
  lemma {:induction false} GreedyKeeps(emitted: seq<PlanExercise>, candidates: seq<Exercise>, onEquipment: string,
                                       budget: real, maxTransitions: int, before: seq<PlanExercise>)
    ensures var r := Greedy(emitted, candidates, onEquipment, budget, maxTransitions, before);
            forall k :: 0 <= k < |before| ==> r[k] == before[k]
    decreases |candidates|
  {
    if candidates != [] {
      var ex := candidates[0];
      var taken := before + [Entry(ex, onEquipment)];
      GreedyKeeps(emitted, candidates[1..], onEquipment, budget, maxTransitions, taken);
      GreedyKeeps(emitted, candidates[1..], onEquipment, budget, maxTransitions, before);
    }
  }

  /** One step of the rule at candidate `j`, in the selection loop's terms. */
  lemma GreedyStep(emitted: seq<PlanExercise>, candidates: seq<Exercise>, onEquipment: string, budget: real,
                   maxTransitions: int, before: seq<PlanExercise>, j: nat)
    requires j < |candidates|
    ensures var ex, remaining := candidates[j], budget - TotalSeconds(before);
            Greedy(emitted, candidates[j..], onEquipment, budget, maxTransitions, before)
              == if remaining <= 0.0 && before != [] then before
                 else if || before == []
                         || (ex.durationSeconds as real <= remaining
                             && !Capped(emitted + before, ex, onEquipment, maxTransitions))
                 then Greedy(emitted, candidates[j + 1..], onEquipment, budget, maxTransitions,
                             before + [Entry(ex, onEquipment)])
                 else Greedy(emitted, candidates[j + 1..], onEquipment, budget, maxTransitions, before)
  {
    DropOne(candidates, j);
  }

  /** The rule stops once the budget is spent and something is selected. */
  lemma GreedyStop(emitted: seq<PlanExercise>, candidates: seq<Exercise>, onEquipment: string, budget: real,
                   maxTransitions: int, before: seq<PlanExercise>, j: nat)
    requires j < |candidates| && budget - TotalSeconds(before) <= 0.0 && before != []
    ensures Greedy(emitted, candidates[j..], onEquipment, budget, maxTransitions, before) == before
  {
    GreedyStep(emitted, candidates, onEquipment, budget, maxTransitions, before, j);
  }

  /** The rule takes candidate `j` when it is the first or fits the budget and the cap. */
  lemma GreedyTake(emitted: seq<PlanExercise>, candidates: seq<Exercise>, onEquipment: string, budget: real,
                   maxTransitions: int, before: seq<PlanExercise>, j: nat)
    requires j < |candidates| && !(budget - TotalSeconds(before) <= 0.0 && before != [])
    requires || before == []
             || (candidates[j].durationSeconds as real <= budget - TotalSeconds(before)
                 && !Capped(emitted + before, candidates[j], onEquipment, maxTransitions))
    ensures Greedy(emitted, candidates[j..], onEquipment, budget, maxTransitions, before)
            == Greedy(emitted, candidates[j + 1..], onEquipment, budget, maxTransitions,
                      before + [Entry(candidates[j], onEquipment)])
  {
    GreedyStep(emitted, candidates, onEquipment, budget, maxTransitions, before, j);
  }

  /** The rule passes over candidate `j` when it is too long or would exceed the cap. */
  lemma GreedyPass(emitted: seq<PlanExercise>, candidates: seq<Exercise>, onEquipment: string, budget: real,
                   maxTransitions: int, before: seq<PlanExercise>, j: nat)
    requires j < |candidates| && before != [] && budget - TotalSeconds(before) > 0.0
    requires || candidates[j].durationSeconds as real > budget - TotalSeconds(before)
             || Capped(emitted + before, candidates[j], onEquipment, maxTransitions)
    ensures Greedy(emitted, candidates[j..], onEquipment, budget, maxTransitions, before)
            == Greedy(emitted, candidates[j + 1..], onEquipment, budget, maxTransitions, before)
  {
    GreedyStep(emitted, candidates, onEquipment, budget, maxTransitions, before, j);
  }

  /** A section with candidates selects at least one, and the first candidate first. */
  lemma GreedyFirst(emitted: seq<PlanExercise>, candidates: seq<Exercise>, onEquipment: string, budget: real,
                    maxTransitions: int)
    ensures var r := Greedy(emitted, candidates, onEquipment, budget, maxTransitions, []);
            && (r == [] <==> candidates == [])
            && (candidates != [] ==> r[0] == Entry(candidates[0], onEquipment))
  {
    if candidates != [] {
      GreedyKeeps(emitted, candidates[1..], onEquipment, budget, maxTransitions, [Entry(candidates[0], onEquipment)]);
    }
  }

  /** The total duration of the candidates. */
  function CandidateSeconds(candidates: seq<Exercise>): (total: real)
    ensures (forall k :: 0 <= k < |candidates| ==> candidates[k].durationSeconds >= 0) ==> total >= 0.0
  {
    if candidates == [] then 0.0 else candidates[0].durationSeconds as real + CandidateSeconds(candidates[1..])
  }

  /**
   * When all the candidates fit in the time left with some to spare and the
   * transition limit is out of reach, every candidate is selected, in order.
   */
  lemma {:induction false} GreedyTakesAll(emitted: seq<PlanExercise>, candidates: seq<Exercise>, onEquipment: string,
                                          budget: real, maxTransitions: int, before: seq<PlanExercise>)
    requires forall k :: 0 <= k < |candidates| ==> candidates[k].durationSeconds >= 0
    requires TotalSeconds(before) + CandidateSeconds(candidates) < budget
    requires |emitted| + |before| + |candidates| < maxTransitions
    ensures var r := Greedy(emitted, candidates, onEquipment, budget, maxTransitions, before);
            && |r| == |before| + |candidates|
            && forall k :: 0 <= k < |candidates| ==> r[|before| + k] == Entry(candidates[k], onEquipment)
    decreases |candidates|
  {
    if candidates != [] {
      var ex, rest := candidates[0], candidates[1..];
      var e := Entry(ex, onEquipment);
      var taken := before + [e];
      assert CandidateSeconds(rest) >= 0.0 by {
        forall k | 0 <= k < |rest| ensures rest[k].durationSeconds >= 0 {
          assert rest[k] == candidates[k + 1];
        }
      }
      assert !Capped(emitted + before, ex, onEquipment, maxTransitions) by {
        assert SpringChanges(emitted + before) <= |emitted + before|;
      }
      assert ex.durationSeconds as real <= budget - TotalSeconds(before);
      assert candidates[0..] == candidates;
      GreedyTake(emitted, candidates, onEquipment, budget, maxTransitions, before, 0);
      TotalSecondsSnoc(before, e);
      GreedyTakesAll(emitted, rest, onEquipment, budget, maxTransitions, taken);
      GreedyKeeps(emitted, rest, onEquipment, budget, maxTransitions, taken);
      var r := Greedy(emitted, rest, onEquipment, budget, maxTransitions, taken);
      forall k | 0 <= k < |candidates| ensures r[|before| + k] == Entry(candidates[k], onEquipment) {
        if k > 0 {
          assert candidates[k] == rest[k - 1];
        }
      }
    }
  }

  /**
   * The bookkeeping for one candidate that fits: a spring transition on
   * unchanged equipment is skipped at the limit when the section already has
   * an exercise, counted while under the limit; otherwise the candidate is
   * taken, the flow grows on an equipment change (which also forgets the last
   * spring), and its spring setting becomes the last one.
   */
  method Consider(prior: Tracker, ex: Exercise, onEquipment: string, maxTransitions: int, sectionHasExercise: bool,
                  ghost es: seq<PlanExercise>)
    returns (skip: bool, after: Tracker)
    requires Tracks(prior, es, maxTransitions)
    requires sectionHasExercise ==> !prior.isFirst && prior.current == Some(onEquipment)
    ensures skip <==> && sectionHasExercise && prior.transitions >= maxTransitions
                      && EffectiveSpring(ex, onEquipment) != ""
                      && prior.lastSpring != Some(EffectiveSpring(ex, onEquipment))
    ensures skip ==> after == prior
    ensures !skip ==> Tracks(after, es + [Entry(ex, onEquipment)], maxTransitions)
  {
    var hasEquipmentTransition := prior.current != Some(onEquipment);
    var spring := EffectiveSpring(ex, onEquipment);
    var hasSpringTransition := spring != "" && prior.lastSpring != Some(spring);
    var transitions := prior.transitions;
    if !prior.isFirst && hasSpringTransition && !hasEquipmentTransition {
      if transitions >= maxTransitions && sectionHasExercise {
        return true, prior;
      }
      if transitions < maxTransitions {
        transitions := transitions + 1;
      }
    }
    var flow, current, lastSpring := prior.flow, prior.current, prior.lastSpring;
    if hasEquipmentTransition {
      current := Some(onEquipment);
      flow := flow + [onEquipment];
      lastSpring := None;
    }
    if spring != "" {
      lastSpring := Some(spring);
    }
    skip, after := false, Tracker(transitions, flow, current, lastSpring, false);
    TakeKeepsTracking(prior, es, Entry(ex, onEquipment), maxTransitions, after);
  }

  /**
   * The selection loop's state after the first `j` candidates, starting from
   * tracker `st` after `emitted`: the tracker follows the class so far,
   * `remaining` is the unspent budget, `selected` are the entries taken (at
   * the positions `taken`, the first candidate first), and the rule applied
   * to the rest from here gives the rule's answer for all the candidates.
   */
  ghost predicate Selecting(st: Tracker, candidates: seq<Exercise>, onEquipment: string, budget: real,
                            maxTransitions: int, emitted: seq<PlanExercise>, j: nat, next: Tracker,
                            selected: seq<PlanExercise>, taken: seq<nat>, remaining: real)
  {
    && j <= |candidates|
    && Tracks(next, emitted + selected, maxTransitions)
    && (selected == [] ==> next == st)
    && remaining == budget - TotalSeconds(selected)
    && (|selected| > 1 ==> remaining >= 0.0)
    && TakenFrom(selected, taken, candidates, onEquipment, j)
    && (j > 0 ==> taken != [] && taken[0] == 0)
    && Greedy(emitted, candidates[j..], onEquipment, budget, maxTransitions, selected)
       == Greedy(emitted, candidates, onEquipment, budget, maxTransitions, [])
  }

  /**
   * One pass of the selection loop over candidate `j` once the budget check
   * has not stopped it: the candidate is taken when it is the section's first
   * or fits the remaining time, unless the transition limit holds it back.
   */
  method TryCandidate(ghost st: Tracker, next: Tracker, selected: seq<PlanExercise>, ghost taken: seq<nat>,
                      remaining: real, candidates: seq<Exercise>, j: nat, onEquipment: string, budget: real,
                      maxTransitions: int, ghost emitted: seq<PlanExercise>)
    returns (next': Tracker, selected': seq<PlanExercise>, ghost taken': seq<nat>, remaining': real)
    requires j < |candidates| && !(remaining <= 0.0 && selected != [])
    requires Selecting(st, candidates, onEquipment, budget, maxTransitions, emitted, j, next, selected, taken, remaining)
    ensures selected' != []
    ensures Selecting(st, candidates, onEquipment, budget, maxTransitions, emitted, j + 1, next', selected', taken',
                      remaining')
  {
    next', selected', taken', remaining' := next, selected, taken, remaining;
    var ex := candidates[j];
    var sectionHasExercise := selected != [];
    if ex.durationSeconds as real <= remaining || !sectionHasExercise {
      var skip, after := Consider(next, ex, onEquipment, maxTransitions, sectionHasExercise, emitted + selected);
      SkipIsCapped(next, emitted + selected, ex, onEquipment, maxTransitions);
      if !skip {
        var e := Entry(ex, onEquipment);
        GreedyTake(emitted, candidates, onEquipment, budget, maxTransitions, selected, j);
        AppendAssoc(emitted, selected, [e]);
        TotalSecondsSnoc(selected, e);
        TakenFromSnoc(selected, taken, candidates, onEquipment, j);
        next' := after;
        selected' := selected + [e];
        taken' := taken + [j];
        remaining' := remaining - ex.durationSeconds as real;
      } else {
        GreedyPass(emitted, candidates, onEquipment, budget, maxTransitions, selected, j);
      }
    } else {
      GreedyPass(emitted, candidates, onEquipment, budget, maxTransitions, selected, j);
    }
  }

  /**
   * The selection loop for one section. Candidates are taken in order; after
   * the first, one is taken only if it fits the remaining time, and the loop
   * stops once the time is used up. `taken` (ghost) lists the positions of the
   * candidates taken.
   */
  method SelectExercises(st: Tracker, candidates: seq<Exercise>, onEquipment: string, budget: real,
                         maxTransitions: int, ghost emitted: seq<PlanExercise>)
    returns (selected: seq<PlanExercise>, next: Tracker, ghost taken: seq<nat>)
    requires Tracks(st, emitted, maxTransitions)
    ensures Tracks(next, emitted + selected, maxTransitions)
    ensures TakenFrom(selected, taken, candidates, onEquipment, |candidates|)
    ensures candidates != [] ==> taken != [] && taken[0] == 0
    ensures selected == [] <==> candidates == []
    ensures |selected| > 1 ==> TotalSeconds(selected) <= budget
    ensures selected == [] ==> next == st
    ensures selected == Greedy(emitted, candidates, onEquipment, budget, maxTransitions, [])
  {
    selected, next, taken := [], st, [];
    assert emitted + selected == emitted;
    assert candidates[0..] == candidates;
    var remaining := budget;
    var sectionHasExercise := false;
    var j: nat := 0;
    while j < |candidates|
      invariant sectionHasExercise == (selected != [])
      invariant Selecting(st, candidates, onEquipment, budget, maxTransitions, emitted, j, next, selected, taken,
                          remaining)
    {
      if remaining <= 0.0 && sectionHasExercise {
        GreedyStop(emitted, candidates, onEquipment, budget, maxTransitions, selected, j);
        break;
      }
      next, selected, taken, remaining :=
        TryCandidate(st, next, selected, taken, remaining, candidates, j, onEquipment, budget, maxTransitions, emitted);
      sectionHasExercise := true;
      j := j + 1;
    }
  }
}
