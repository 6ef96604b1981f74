/**
 * Equipment flow: the "no returning to equipment after leaving it" rule, the
 * repair pass that enforces it where it can, and the count of equipment changes.
 */
module Flow {
  import opened Util
  import opened Catalog
  import opened Tallies

  /** Position `i` returns to equipment that was used before and then left. */
  predicate ReturnsAt(xs: seq<string>, i: int)
    requires 0 < i < |xs|
  {
    xs[i] != xs[i - 1] && xs[i] in xs[..i]
  }

  /** No equipment is used again after a different one followed it. */
  predicate Linear(xs: seq<string>)
  {
    forall i :: 0 < i < |xs| ==> !ReturnsAt(xs, i)
  }

  /**
   * The repair's escape hatch at position `i`: the return is kept because
   * neither the current equipment nor mat has an exercise in that section.
   */
  predicate BounceAt(result: seq<string>, allocations: seq<string>, counts: SectionCounts, ordered: seq<Section>,
                     allowed: seq<string>, i: int)
    requires 0 < i < |result| == |allocations| <= |ordered|
  {
    && result[i] == allocations[i]
    && !(result[i - 1] != "" && CountIn(counts, ordered[i].id, result[i - 1]) > 0)
    && !("mat" in allowed && CountIn(counts, ordered[i].id, "mat") > 0)
  }

  /**
   * A position the repair changed now holds either the equipment of the
   * previous section or mat, and that equipment has an exercise in the section.
   */
  predicate RepairedAt(result: seq<string>, allocations: seq<string>, counts: SectionCounts, ordered: seq<Section>,
                       allowed: seq<string>, i: int)
    requires 0 <= i < |result| == |allocations| <= |ordered|
  {
    result[i] != allocations[i] ==>
      && CountIn(counts, ordered[i].id, result[i]) > 0
      && ((i > 0 && result[i] == result[i - 1] && result[i - 1] != "") || (result[i] == "mat" && "mat" in allowed))
  }

  /** The state of the repair scan: the equipment chosen so far and the equipment abandoned so far. */
  datatype Scan = Scan(result: seq<string>, abandoned: set<string>)

  /**
   * One step of the scan, for allocation `eq` of section `sectionId`: leaving
   * the current equipment abandons it; abandoned equipment is replaced by the
   * current equipment, else by mat, when that has an exercise in the section,
   * and otherwise kept and no longer counted as abandoned.
   */
  function ScanStep(s: Scan, eq: string, sectionId: string, counts: SectionCounts, allowed: seq<string>): (t: Scan)
    ensures |t.result| == |s.result| + 1 && t.result[..|s.result|] == s.result
  {
    var n := |s.result|;
    var abandoned := if n > 0 && eq != s.result[n - 1] then s.abandoned + {s.result[n - 1]} else s.abandoned;
    if eq !in abandoned then Scan(s.result + [eq], abandoned)
    else if n > 0 && s.result[n - 1] != "" && CountIn(counts, sectionId, s.result[n - 1]) > 0 then
      Scan(s.result + [s.result[n - 1]], abandoned)
    else if "mat" in allowed && CountIn(counts, sectionId, "mat") > 0 then Scan(s.result + ["mat"], abandoned)
    else Scan(s.result + [eq], abandoned - {eq})
  }

  /**
   * A step abandons at most the equipment it leaves, and changes the allocation
   * only when it was abandoned, preferring the equipment just left when usable.
   */
  lemma ScanStepFacts(s: Scan, eq: string, sectionId: string, counts: SectionCounts, allowed: seq<string>)
    ensures var t := ScanStep(s, eq, sectionId, counts, allowed);
            var left := if s.result != [] then {s.result[|s.result| - 1]} else {};
            && t.abandoned <= s.abandoned + left
            && (t.result[|s.result|] != eq ==> eq in s.abandoned + left)
            && (t.result[|s.result|] != eq && s.result != [] && s.result[|s.result| - 1] != ""
                && CountIn(counts, sectionId, s.result[|s.result| - 1]) > 0 ==>
                  t.result[|s.result|] == s.result[|s.result| - 1])
  {
  }

  /** How `ScanStep` extends the scan, case by case, with `current` the last equipment of the scan. */
  lemma ScanStepCases(s: Scan, current: Option<string>, eq: string, sectionId: string, counts: SectionCounts,
                      allowed: seq<string>)
    requires current == if s.result == [] then None else Some(s.result[|s.result| - 1])
    ensures var t := ScanStep(s, eq, sectionId, counts, allowed);
            var ab := if current.Some? && eq != current.value then s.abandoned + {current.value} else s.abandoned;
            var onCurrent := current.Some? && current.value != "" && CountIn(counts, sectionId, current.value) > 0;
            var onMat := "mat" in allowed && CountIn(counts, sectionId, "mat") > 0;
            && (eq !in ab ==> t == Scan(s.result + [eq], ab))
            && (eq in ab && onCurrent ==> t == Scan(s.result + [current.value], ab))
            && (eq in ab && !onCurrent && onMat ==> t == Scan(s.result + ["mat"], ab))
            && (eq in ab && !onCurrent && !onMat ==> t == Scan(s.result + [eq], ab - {eq}))
  {
  }

  /** The scan over the first `n` allocations. */
  function ScanUpTo(allocations: seq<string>, counts: SectionCounts, ordered: seq<Section>, allowed: seq<string>,
                    n: nat): (s: Scan)
    requires n <= |allocations| <= |ordered|
    ensures |s.result| == n
  {
    if n == 0 then Scan([], {})
    else ScanStep(ScanUpTo(allocations, counts, ordered, allowed, n - 1), allocations[n - 1], ordered[n - 1].id,
                  counts, allowed)
  }

  /** The scan over one more allocation is one more step. */
  lemma ScanUpToNext(allocations: seq<string>, counts: SectionCounts, ordered: seq<Section>, allowed: seq<string>,
                     n: nat)
    requires n < |allocations| <= |ordered|
    ensures ScanUpTo(allocations, counts, ordered, allowed, n + 1)
              == ScanStep(ScanUpTo(allocations, counts, ordered, allowed, n), allocations[n], ordered[n].id, counts,
                          allowed)
  {
  }

  /** What the repair returns: the input itself when it has at most one section, else the scan's result. */
  function LinearRepair(allocations: seq<string>, counts: SectionCounts, ordered: seq<Section>, allowed: seq<string>)
    : (r: seq<string>)
    requires |allocations| <= |ordered|
    ensures |r| == |allocations|
  {
    if |allocations| <= 1 then allocations else ScanUpTo(allocations, counts, ordered, allowed, |allocations|).result
  }

  /**
   * Every position of `r` that differs from its allocation holds a return to
   * equipment used earlier in `r`, and holds the previous position's equipment
   * whenever that has an exercise in the section.
   */
  ghost predicate ChangedOnlyAtReturns(r: seq<string>, allocations: seq<string>, counts: SectionCounts,
                                       ordered: seq<Section>)
    requires |r| <= |allocations| <= |ordered|
  {
    forall i :: 0 <= i < |r| && r[i] != allocations[i] ==>
      && i > 0 && allocations[i] in r[..i]
      && (r[i - 1] != "" && CountIn(counts, ordered[i].id, r[i - 1]) > 0 ==> r[i] == r[i - 1])
  }

  /** Everything the scan has abandoned it used before. */
  ghost predicate AbandonedUsed(s: Scan)
  {
    forall e :: e in s.abandoned ==> e in s.result
  }

  lemma {:induction false} ScanAbandonedUsed(allocations: seq<string>, counts: SectionCounts, ordered: seq<Section>,
                                             allowed: seq<string>, n: nat)
    requires n <= |allocations| <= |ordered|
    ensures AbandonedUsed(ScanUpTo(allocations, counts, ordered, allowed, n))
  {
    if n > 0 {
      ScanAbandonedUsed(allocations, counts, ordered, allowed, n - 1);
      var prev := ScanUpTo(allocations, counts, ordered, allowed, n - 1);
      var s := ScanUpTo(allocations, counts, ordered, allowed, n);
      assert s == ScanStep(prev, allocations[n - 1], ordered[n - 1].id, counts, allowed);
      ScanStepFacts(prev, allocations[n - 1], ordered[n - 1].id, counts, allowed);
      SnocOfPrefix(s.result, prev.result);
      forall e | e in s.abandoned ensures e in s.result {
        if n > 1 && e == prev.result[n - 2] {
          assert e in prev.result;
        }
      }
    }
  }

  /** The repair changes a section only at a return, preferring the previous section's equipment. */
  lemma {:induction false} ScanChoices(allocations: seq<string>, counts: SectionCounts, ordered: seq<Section>,
                                       allowed: seq<string>, n: nat)
    requires n <= |allocations| <= |ordered|
    ensures ChangedOnlyAtReturns(ScanUpTo(allocations, counts, ordered, allowed, n).result, allocations, counts, ordered)
  {
    if n > 0 {
      var i := n - 1;
      ScanChoices(allocations, counts, ordered, allowed, i);
      ScanAbandonedUsed(allocations, counts, ordered, allowed, i);
      var prev := ScanUpTo(allocations, counts, ordered, allowed, i);
      var s := ScanUpTo(allocations, counts, ordered, allowed, n);
      assert s == ScanStep(prev, allocations[i], ordered[i].id, counts, allowed);
      ScanStepFacts(prev, allocations[i], ordered[i].id, counts, allowed);
      if s.result[i] != allocations[i] && i > 0 {
        assert prev.result[i - 1] in prev.result;
      }
      ChangedSnoc(prev.result, s.result, allocations, counts, ordered);
    }
  }

  /** A new last position that changes only at a return keeps the earlier positions' guarantee. */
  lemma ChangedSnoc(prev: seq<string>, result: seq<string>, allocations: seq<string>, counts: SectionCounts,
                    ordered: seq<Section>)
    requires |result| == |prev| + 1 && result[..|prev|] == prev && |result| <= |allocations| <= |ordered|
    requires ChangedOnlyAtReturns(prev, allocations, counts, ordered)
    requires var i := |prev|;
             result[i] != allocations[i] ==>
               && i > 0 && allocations[i] in prev
               && (prev[i - 1] != "" && CountIn(counts, ordered[i].id, prev[i - 1]) > 0 ==> result[i] == prev[i - 1])
    ensures ChangedOnlyAtReturns(result, allocations, counts, ordered)
  {
    SnocOfPrefix(result, prev);
    forall k | 0 <= k <= |prev| ensures result[..k] == prev[..k] {
      PrefixOfSnoc(prev, result[|prev|], k);
    }
  }

  /**
   * `_enforce_linear_flow`: scans left to right with the current equipment and
   * the set of abandoned equipment. A section allocated abandoned equipment is
   * moved to the current equipment, else to mat, when that has an exercise in
   * the section; otherwise the return ("bounce") is kept and the equipment is
   * no longer counted as abandoned.
   */
  method EnforceLinearFlow(allocations: seq<string>, counts: SectionCounts, ordered: seq<Section>, allowed: seq<string>)
    returns (result: seq<string>)
    requires |allocations| <= |ordered|
    ensures |result| == |allocations|
    ensures result == LinearRepair(allocations, counts, ordered, allowed)
  {
    if |allocations| <= 1 {
      return allocations;
    }
    result := allocations;
    var abandoned: set<string> := {};
    var current: Option<string> := None;
    ghost var scan := Scan([], {});
    var i := 0;
    while i < |result|
      invariant 0 <= i <= |allocations|
      invariant scan == ScanUpTo(allocations, counts, ordered, allowed, i)
      invariant result == scan.result + allocations[i..] && scan.abandoned == abandoned
      invariant current == if scan.result == [] then None else Some(scan.result[|scan.result| - 1])
    {
      DropOne(allocations, i);
      ghost var next := ScanStep(scan, allocations[i], ordered[i].id, counts, allowed);
      ScanUpToNext(allocations, counts, ordered, allowed, i);
      result, abandoned := RepairAt(result, i, current, abandoned, ordered[i].id, counts, allowed, scan,
                                    allocations[i..]);
      scan := next;
      current := Some(result[i]);
      i := i + 1;
    }
    assert result == scan.result;
  }

  /**
   * One round of the scan, in place: section `i` is about to be examined, the
   * sections before it hold the scan's result so far and the rest are as
   * allocated. The abandoned set and section `i` come out as one scan step
   * leaves them.
   */
  method RepairAt(result: seq<string>, i: nat, current: Option<string>, abandoned: set<string>, sectionId: string,
                  counts: SectionCounts, allowed: seq<string>, ghost scan: Scan, ghost rest: seq<string>)
    returns (result': seq<string>, abandoned': set<string>)
    requires rest != [] && result == scan.result + rest && i == |scan.result| && abandoned == scan.abandoned
    requires current == if scan.result == [] then None else Some(scan.result[|scan.result| - 1])
    ensures var t := ScanStep(scan, rest[0], sectionId, counts, allowed);
            result' == t.result + rest[1..] && abandoned' == t.abandoned
  {
    SplitAt(scan.result, rest);
    var eq := result[i];
    ScanStepCases(scan, current, eq, sectionId, counts, allowed);
    result', abandoned' := result, abandoned;
    if current.Some? && eq != current.value {
      abandoned' := abandoned' + {current.value};
    }
    if eq in abandoned' {
      if current.Some? && current.value != "" && CountIn(counts, sectionId, current.value) > 0 {
        UpdateSplit(scan.result, rest, current.value);
        result' := result'[i := current.value];
      } else if "mat" in allowed && CountIn(counts, sectionId, "mat") > 0 {
        UpdateSplit(scan.result, rest, "mat");
        result' := result'[i := "mat"];
      } else {
        abandoned' := abandoned' - {eq};
      }
    }
  }

  /** Every equipment the scan used and then left is abandoned. */
  ghost predicate LeftAbandoned(s: Scan)
  {
    s.result != [] ==> forall e :: e in s.result && e != s.result[|s.result| - 1] ==> e in s.abandoned
  }

  /** Equipment used by the scan and then left is abandoned. */
  lemma {:induction false} ScanAbandons(allocations: seq<string>, counts: SectionCounts, ordered: seq<Section>,
                                        allowed: seq<string>, n: nat)
    requires n <= |allocations| <= |ordered|
    ensures LeftAbandoned(ScanUpTo(allocations, counts, ordered, allowed, n))
  {
    if n > 1 {
      ScanAbandons(allocations, counts, ordered, allowed, n - 1);
      var prev := ScanUpTo(allocations, counts, ordered, allowed, n - 1);
      var s := ScanUpTo(allocations, counts, ordered, allowed, n);
      assert s == ScanStep(prev, allocations[n - 1], ordered[n - 1].id, counts, allowed);
      assert s.result == prev.result + [s.result[n - 1]];
      var last := prev.result[n - 2];
      forall e | e in s.result && e != s.result[n - 1] ensures e in s.abandoned {
        assert e in prev.result;
        if e != last {
          assert LeftAbandoned(prev);
          assert e in prev.abandoned;
        }
      }
    }
  }

  /** Every position of the scan is repaired as `RepairedUpTo` says. */
  lemma {:induction false} ScanRepairs(allocations: seq<string>, counts: SectionCounts, ordered: seq<Section>,
                                       allowed: seq<string>, n: nat)
    requires n <= |allocations| <= |ordered|
    ensures RepairedUpTo(ScanUpTo(allocations, counts, ordered, allowed, n).result, allocations[..n],
                         counts, ordered, allowed, n)
  {
    if n > 0 {
      var i := n - 1;
      ScanRepairs(allocations, counts, ordered, allowed, i);
      var prev := ScanUpTo(allocations, counts, ordered, allowed, i);
      var r := ScanUpTo(allocations, counts, ordered, allowed, n).result;
      ScanUpToNext(allocations, counts, ordered, allowed, i);
      SnocOfPrefix(r, prev.result);
      TakeSnoc(allocations, i);
      RepairedExtend(prev.result, allocations[..i], r[i], allocations[i], counts, ordered, allowed);
      ScanLastRepaired(allocations, counts, ordered, allowed, n);
      RepairedSnoc(r, allocations[..n], counts, ordered, allowed, i);
    }
  }

  /** Position `i` repaired on top of the positions before it. */
  lemma RepairedSnoc(result: seq<string>, allocations: seq<string>, counts: SectionCounts, ordered: seq<Section>,
                     allowed: seq<string>, i: nat)
    requires i < |result| == |allocations| <= |ordered|
    requires RepairedUpTo(result, allocations, counts, ordered, allowed, i)
    requires RepairedAt(result, allocations, counts, ordered, allowed, i)
    requires i > 0 && ReturnsAt(result, i) ==> result[i] == "mat" || BounceAt(result, allocations, counts, ordered, allowed, i)
    ensures RepairedUpTo(result, allocations, counts, ordered, allowed, i + 1)
  {
  }

  /** The last position of the scan is repaired as `RepairedUpTo` says. */
  lemma ScanLastRepaired(allocations: seq<string>, counts: SectionCounts, ordered: seq<Section>,
                         allowed: seq<string>, n: nat)
    requires 0 < n <= |allocations| <= |ordered|
    ensures var r := ScanUpTo(allocations, counts, ordered, allowed, n).result;
            var a := allocations[..n];
            && RepairedAt(r, a, counts, ordered, allowed, n - 1)
            && (n > 1 && ReturnsAt(r, n - 1) ==> r[n - 1] == "mat" || BounceAt(r, a, counts, ordered, allowed, n - 1))
  {
    var i := n - 1;
    var prev := ScanUpTo(allocations, counts, ordered, allowed, i);
    var s := ScanUpTo(allocations, counts, ordered, allowed, n);
    assert s == ScanStep(prev, allocations[i], ordered[i].id, counts, allowed);
    assert s.result[..i] == prev.result;
    if i > 0 {
      assert s.result[i - 1] == prev.result[i - 1];
      if ReturnsAt(s.result, i) && s.result[i] == allocations[i] {
        ScanAbandons(allocations, counts, ordered, allowed, i);
        assert LeftAbandoned(prev);
        assert allocations[i] in prev.result;
        assert allocations[i] in prev.abandoned;
      }
    }
  }

  /** Appending one position keeps the earlier positions repaired. */
  lemma RepairedExtend(result: seq<string>, allocations: seq<string>, x: string, y: string, counts: SectionCounts,
                       ordered: seq<Section>, allowed: seq<string>)
    requires |result| == |allocations| < |ordered|
    requires RepairedUpTo(result, allocations, counts, ordered, allowed, |result|)
    ensures RepairedUpTo(result + [x], allocations + [y], counts, ordered, allowed, |result|)
  {
    var r, a := result + [x], allocations + [y];
    forall k | 0 <= k < |result|
      ensures RepairedAt(r, a, counts, ordered, allowed, k)
      ensures k > 0 && ReturnsAt(r, k) ==> r[k] == "mat" || BounceAt(r, a, counts, ordered, allowed, k)
    {
      assert r[..k] == result[..k];
      assert RepairedAt(result, allocations, counts, ordered, allowed, k);
    }
  }

  /**
   * The repair's guarantees: the first section keeps its allocation, every
   * change is to usable equipment and every surviving return is to mat or a
   * bounce, a linear allocation is left unchanged, and a change happens only
   * at equipment already used earlier, preferring the previous section's.
   */
  lemma LinearRepairSound(allocations: seq<string>, counts: SectionCounts, ordered: seq<Section>, allowed: seq<string>)
    requires |allocations| <= |ordered|
    ensures var r := LinearRepair(allocations, counts, ordered, allowed);
            && (|r| > 0 ==> r[0] == allocations[0])
            && RepairedUpTo(r, allocations, counts, ordered, allowed, |r|)
            && (Linear(allocations) ==> r == allocations)
            && ChangedOnlyAtReturns(r, allocations, counts, ordered)
  {
    var n := |allocations|;
    if n > 1 {
      assert allocations[..n] == allocations;
      ScanChoices(allocations, counts, ordered, allowed, n);
      ScanRepairs(allocations, counts, ordered, allowed, n);
      if Linear(allocations) {
        ScanLinear(allocations, counts, ordered, allowed, n);
      }
      var r := ScanUpTo(allocations, counts, ordered, allowed, n).result;
      assert RepairedAt(r, allocations, counts, ordered, allowed, 0);
    }
  }

  /** A linear allocation passes through the scan unchanged. */
  lemma {:induction false} ScanLinear(allocations: seq<string>, counts: SectionCounts, ordered: seq<Section>,
                                      allowed: seq<string>, n: nat)
    requires n <= |allocations| <= |ordered| && Linear(allocations)
    ensures var s := ScanUpTo(allocations, counts, ordered, allowed, n);
            && s.result == allocations[..n]
            && forall e :: e in s.abandoned <==> n > 0 && e in allocations[..n] && e != allocations[n - 1]
  {
    if n > 0 {
      ScanLinear(allocations, counts, ordered, allowed, n - 1);
      var i := n - 1;
      TakeSnoc(allocations, i);
      if i > 0 && allocations[i] != allocations[i - 1] {
        LinearStep(allocations, i);
      }
    }
  }

  /** Every position before `n` is repaired as `RepairedAt` says, and every return there is to mat or a bounce. */
  ghost predicate RepairedUpTo(result: seq<string>, allocations: seq<string>, counts: SectionCounts, ordered: seq<Section>,
                               allowed: seq<string>, n: int)
    requires n <= |result| == |allocations| <= |ordered|
  {
    forall k :: 0 <= k < n ==>
      && RepairedAt(result, allocations, counts, ordered, allowed, k)
      && (k > 0 && ReturnsAt(result, k) ==> result[k] == "mat" || BounceAt(result, allocations, counts, ordered, allowed, k))
  }

  /** In a linear sequence a change of equipment always goes to equipment never used before. */
  lemma LinearStep(xs: seq<string>, i: int)
    requires Linear(xs) && 0 < i < |xs| && xs[i] != xs[i - 1]
    ensures xs[i] !in xs[..i]
  {
    assert !ReturnsAt(xs, i);
  }

  /** Equipment changes between neighbours, not counting a change away from an empty id. */
  function Changes(xs: seq<string>): nat
  {
    if |xs| <= 1 then 0
    else Changes(xs[..|xs| - 1]) + (if xs[|xs| - 2] != "" && xs[|xs| - 1] != xs[|xs| - 2] then 1 else 0)
  }

  /** `_count_equipment_transitions`. */
  method CountEquipmentTransitions(allocations: seq<string>) returns (transitions: nat)
    ensures transitions == Changes(allocations)
    ensures transitions < |allocations| || allocations == []
  {
    transitions := 0;
    var prev: Option<string> := None;
    var i := 0;
    while i < |allocations|
      invariant 0 <= i <= |allocations|
      invariant prev == if i == 0 then None else Some(allocations[i - 1])
      invariant transitions == Changes(allocations[..i])
      invariant transitions < i || i == 0
    {
      var eq := allocations[i];
      if prev.Some? && prev.value != "" && eq != prev.value {
        transitions := transitions + 1;
      }
      assert allocations[..i + 1][..i] == allocations[..i];
      prev := Some(eq);
      i := i + 1;
    }
    assert allocations[..i] == allocations;
  }

  /** Distinct equipment in order of first use. */
  function FirstAppearances(xs: seq<string>): (r: seq<string>)
    ensures Distinct(r)
    ensures forall e :: e in r <==> e in xs
    ensures forall i, j :: 0 <= i < j < |r| ==> IndexOf(xs, r[i]) < IndexOf(xs, r[j])
  {
    if xs == [] then []
    else
      var front, x := xs[..|xs| - 1], xs[|xs| - 1];
      var r := FirstAppearances(front);
      assert xs == front + [x];
      assert forall e :: e in xs <==> e in front || e == x;
      forall e | e in front ensures IndexOf(xs, e) == IndexOf(front, e) {
        IndexOfPrefix(front, x, e);
      }
      if x in r then r
      else
        forall i | 0 <= i < |r| ensures IndexOf(xs, r[i]) < IndexOf(xs, x) {
          assert IndexOf(xs, r[i]) < |front|;
        }
        r + [x]
  }

  /** The first occurrence of an element of `xs` does not move when something is appended. */
  lemma {:induction false} IndexOfPrefix(xs: seq<string>, x: string, e: string)
    requires e in xs
    ensures IndexOf(xs + [x], e) == IndexOf(xs, e)
  {
    if xs[0] != e {
      assert (xs + [x])[1..] == xs[1..] + [x];
      IndexOfPrefix(xs[1..], x, e);
    }
  }

  /** A prefix of a linear flow is linear. */
  lemma LinearPrefix(xs: seq<string>, n: nat)
    requires Linear(xs) && n <= |xs|
    ensures Linear(xs[..n])
  {
    forall i | 0 < i < n ensures !ReturnsAt(xs[..n], i) {
      assert xs[..n][..i] == xs[..i];
      assert !ReturnsAt(xs, i);
    }
  }

  /** Appending an id adds it to the first-use order exactly when it is new. */
  lemma FirstAppearancesSnoc(xs: seq<string>, n: nat)
    requires 0 < n == |xs| - 1
    ensures FirstAppearances(xs) == if xs[n] in xs[..n] then FirstAppearances(xs[..n])
                                    else FirstAppearances(xs[..n]) + [xs[n]]
  {
  }

  /**
   * On a linear flow of non-empty ids the counted transitions are one fewer
   * than the number of distinct equipment used.
   */
  lemma {:induction false} LinearChangesCountDistinct(xs: seq<string>)
    requires xs != [] && Linear(xs)
    requires forall e :: e in xs ==> e != ""
    ensures Changes(xs) + 1 == |FirstAppearances(xs)|
  {
    if |xs| > 1 {
      var n := |xs| - 1;
      var front := xs[..n];
      LinearPrefix(xs, n);
      assert xs[n - 1] in xs;
      assert forall e :: e in front ==> e in xs;
      LinearChangesCountDistinct(front);
      FirstAppearancesSnoc(xs, n);
      if xs[n] != xs[n - 1] {
        assert !ReturnsAt(xs, n);
      } else {
        assert xs[n - 1] in front;
      }
    }
  }
}
