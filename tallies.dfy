/**
 * Per-section equipment counts. The source keeps them in a Python dict whose
 * keys stay in insertion order; `max(counts, key=counts.get)` then returns the
 * FIRST key with the largest count, so the order is part of the model.
 */
module Tallies {
  import opened Util
  import opened Catalog

  /** Equipment id to count, keys in insertion order. */
  type Tally = seq<(string, nat)>

  function Keys(t: Tally): (ks: seq<string>)
    ensures |ks| == |t| && forall i :: 0 <= i < |t| ==> ks[i] == t[i].0
  {
    if t == [] then [] else [t[0].0] + Keys(t[1..])
  }

  /** `counts.get(key, 0)`. */
  function Get(t: Tally, key: string): nat
  {
    if t == [] then 0 else if t[0].0 == key then t[0].1 else Get(t[1..], key)
  }

  /** Keys are distinct and every stored count is positive. */
  predicate WellFormed(t: Tally)
  {
    Distinct(Keys(t)) && forall i :: 0 <= i < |t| ==> t[i].1 > 0
  }

  lemma {:induction false} GetPositiveIffKey(t: Tally, key: string)
    requires WellFormed(t)
    ensures Get(t, key) > 0 <==> key in Keys(t)
  {
    if t != [] {
      assert WellFormed(t[1..]) by {
        assert Keys(t[1..]) == Keys(t)[1..];
      }
      GetPositiveIffKey(t[1..], key);
      assert Keys(t) == [t[0].0] + Keys(t[1..]);
    }
  }

  /** An empty tally is exactly one in which every key has count 0. */
  lemma EmptyIffAllZero(t: Tally)
    requires WellFormed(t)
    ensures t == [] <==> forall k :: Get(t, k) == 0
  {
    if t != [] {
      GetPositiveIffKey(t, t[0].0);
    }
  }

  /** `counts[key] = counts.get(key, 0) + 1`: a new key goes to the end. */
  function Bump(t: Tally, key: string): (r: Tally)
    ensures Get(r, key) == Get(t, key) + 1
    ensures forall k :: k != key ==> Get(r, k) == Get(t, k)
    ensures key in Keys(t) ==> Keys(r) == Keys(t)
    ensures key !in Keys(t) ==> Keys(r) == Keys(t) + [key]
    ensures WellFormed(t) ==> WellFormed(r)
  {
    if t == [] then [(key, 1)]
    else if t[0].0 == key then
      var r := [(key, t[0].1 + 1)] + t[1..];
      assert Keys(r) == Keys(t) by {
        KeysCons(r);
        KeysCons(t);
      }
      r
    else
      var tail := Bump(t[1..], key);
      var r := [t[0]] + tail;
      KeysCons(t);
      KeysCons(r);
      assert r[1..] == tail;
      if WellFormed(t) then
        WellFormedTail(t);
        WellFormedCons(t[0], tail);
        r
      else r
  }

  lemma KeysCons(t: Tally)
    requires t != []
    ensures Keys(t) == [t[0].0] + Keys(t[1..])
  {
  }

  /** The tail of a well-formed tally is well formed and lacks the head's key. */
  lemma WellFormedTail(t: Tally)
    requires WellFormed(t) && t != []
    ensures WellFormed(t[1..]) && t[0].0 !in Keys(t[1..])
  {
    KeysCons(t);
    assert Keys(t[1..]) == Keys(t)[1..];
  }

  /** A positive entry with a new key in front of a well-formed tally keeps it well formed. */
  lemma WellFormedCons(e: (string, nat), t: Tally)
    requires WellFormed(t) && e.0 !in Keys(t) && e.1 > 0
    ensures WellFormed([e] + t)
  {
    var r := [e] + t;
    KeysCons(r);
    assert r[1..] == t;
    forall i, j | 0 <= i < j < |Keys(r)| ensures Keys(r)[i] != Keys(r)[j] {
      assert Keys(r)[j] == Keys(t)[j - 1];
      if i > 0 {
        assert Keys(r)[i] == Keys(t)[i - 1];
      }
    }
  }

  /** The inner loop: count each listed equipment that the class allows. */
  function CountEquipment(t: Tally, equipment: seq<string>, allowed: seq<string>): (r: Tally)
    ensures WellFormed(t) ==> WellFormed(r)
    decreases |equipment|
  {
    if equipment == [] then t
    else
      var t' := if equipment[0] in allowed then Bump(t, equipment[0]) else t;
      CountEquipment(t', equipment[1..], allowed)
  }

  /** The inner loop adds to each allowed key the number of times the exercise lists it. */
  lemma {:induction false} CountEquipmentCounts(t: Tally, equipment: seq<string>, allowed: seq<string>)
    ensures var r := CountEquipment(t, equipment, allowed);
            forall k :: Get(r, k) == Get(t, k) + (if k in allowed then multiset(equipment)[k] else 0)
    decreases |equipment|
  {
    if equipment != [] {
      var e, rest := equipment[0], equipment[1..];
      var t' := if e in allowed then Bump(t, e) else t;
      CountEquipmentCounts(t', rest, allowed);
      assert equipment == [e] + rest;
      assert multiset(equipment) == multiset{e} + multiset(rest);
    }
  }

  /** After the inner loop an allowed key has a count exactly when it had one or the exercise lists it. */
  lemma CountEquipmentPositive(t: Tally, equipment: seq<string>, allowed: seq<string>)
    ensures var r := CountEquipment(t, equipment, allowed);
            && (forall k :: Get(r, k) == Get(t, k) + (if k in allowed then multiset(equipment)[k] else 0))
            && (forall k :: Get(r, k) > 0 <==> Get(t, k) > 0 || (k in allowed && k in equipment))
  {
    CountEquipmentCounts(t, equipment, allowed);
    assert forall k :: k in equipment <==> k in multiset(equipment);
  }

  /**
   * How often `key` is listed by the exercises of the section that suit the
   * level (an exercise listing it twice counts twice).
   */
  function Listings(exercises: seq<Exercise>, sectionId: string, level: string, key: string): nat
  {
    if exercises == [] then 0
    else
      var ex := exercises[0];
      (if ex.section == sectionId && LevelMatches(ex.level, level) then multiset(ex.equipment)[key] else 0)
      + Listings(exercises[1..], sectionId, level, key)
  }

  /** Usable(exs, s, level, eq): some exercise of section `s` suits `level` and runs on `eq`. */
  predicate Usable(exercises: seq<Exercise>, sectionId: string, level: string, equipment: string)
  {
    exists ex :: ex in exercises && ex.section == sectionId && LevelMatches(ex.level, level) && equipment in ex.equipment
  }

  /** The outer loop over the exercises, skipping other sections and unsuitable levels. */
  function CountExercises(t: Tally, exercises: seq<Exercise>, sectionId: string, level: string, allowed: seq<string>)
    : (r: Tally)
    ensures WellFormed(t) ==> WellFormed(r)
    ensures forall k :: Get(r, k) > 0 <==> Get(t, k) > 0 || (k in allowed && Usable(exercises, sectionId, level, k))
    ensures forall k :: Get(r, k) == Get(t, k) + (if k in allowed then Listings(exercises, sectionId, level, k) else 0)
    decreases |exercises|
  {
    if exercises == [] then t
    else
      var ex := exercises[0];
      CountEquipmentPositive(t, ex.equipment, allowed);
      var t' := if ex.section == sectionId && LevelMatches(ex.level, level) then CountEquipment(t, ex.equipment, allowed) else t;
      var r := CountExercises(t', exercises[1..], sectionId, level, allowed);
      assert forall k :: Usable(exercises, sectionId, level, k) <==>
        (ex.section == sectionId && LevelMatches(ex.level, level) && k in ex.equipment) || Usable(exercises[1..], sectionId, level, k)
      by {
        forall k ensures Usable(exercises, sectionId, level, k) ==>
          (ex.section == sectionId && LevelMatches(ex.level, level) && k in ex.equipment) || Usable(exercises[1..], sectionId, level, k)
        {
          if Usable(exercises, sectionId, level, k) {
            var e :| e in exercises && e.section == sectionId && LevelMatches(e.level, level) && k in e.equipment;
            if e != ex {
              assert e in exercises[1..];
            }
          }
        }
      }
      r
  }

  /** The count dict of one section: usable exercises per allowed equipment at `level`. */
  function TallyOf(exercises: seq<Exercise>, sectionId: string, level: string, allowed: seq<string>): (r: Tally)
    ensures WellFormed(r)
    ensures forall k :: Get(r, k) > 0 <==> k in allowed && Usable(exercises, sectionId, level, k)
    ensures forall k :: Get(r, k) == if k in allowed then Listings(exercises, sectionId, level, k) else 0
    ensures r == [] <==> forall k :: k in allowed ==> !Usable(exercises, sectionId, level, k)
  {
    var r := CountExercises([], exercises, sectionId, level, allowed);
    EmptyIffAllZero(r);
    r
  }

  /** The position of the first entry with the largest count. */
  function MaxIndex(t: Tally): (i: nat)
    requires t != []
    ensures i < |t|
    ensures forall j :: 0 <= j < |t| ==> t[j].1 <= t[i].1
    ensures forall j :: 0 <= j < i ==> t[j].1 < t[i].1
  {
    if |t| == 1 then 0
    else
      var m := 1 + MaxIndex(t[1..]);
      assert t[m] == t[1..][m - 1];
      if t[0].1 >= t[m].1 then 0 else m
  }

  /** `k` is the key of an entry with the largest count, and every entry before it has a smaller count. */
  ghost predicate FirstMax(t: Tally, k: string)
  {
    exists i :: 0 <= i < |t| && t[i].0 == k
                && (forall j :: 0 <= j < |t| ==> t[j].1 <= t[i].1)
                && (forall j :: 0 <= j < i ==> t[j].1 < t[i].1)
  }

  /**
   * `max(counts, key=counts.get)`: Python's `max` returns the first key with
   * the largest count; in a well-formed tally that count is positive.
   */
  function MaxKey(t: Tally): (k: string)
    requires t != []
    ensures FirstMax(t, k)
    ensures WellFormed(t) ==> Get(t, k) > 0
    ensures WellFormed(t) ==> forall k' :: Get(t, k') <= Get(t, k)
  {
    var i := MaxIndex(t);
    var e := t[i];
    assert WellFormed(t) ==> Get(t, e.0) == e.1 && e.1 > 0 by {
      if WellFormed(t) {
        GetAt(t, i);
      }
    }
    assert WellFormed(t) ==> forall k' :: Get(t, k') <= e.1 by {
      if WellFormed(t) {
        forall k' ensures Get(t, k') <= e.1 {
          GetBounded(t, k');
        }
      }
    }
    e.0
  }

  lemma {:induction false} GetAt(t: Tally, i: nat)
    requires WellFormed(t) && i < |t|
    ensures Get(t, t[i].0) == t[i].1
  {
    assert Keys(t)[i] == t[i].0;
    if i > 0 {
      assert Keys(t)[0] != Keys(t)[i];
      assert WellFormed(t[1..]) by {
        assert Keys(t[1..]) == Keys(t)[1..];
      }
      GetAt(t[1..], i - 1);
    }
  }

  lemma {:induction false} GetBounded(t: Tally, k: string)
    requires t != []
    ensures Get(t, k) == 0 || exists i :: 0 <= i < |t| && t[i].1 == Get(t, k)
  {
    if t[0].0 != k && |t| > 1 {
      GetBounded(t[1..], k);
      if Get(t[1..], k) != 0 {
        var i :| 0 <= i < |t[1..]| && t[1..][i].1 == Get(t[1..], k);
        assert t[i + 1].1 == Get(t, k);
      }
    }
  }

  /** `section_exercise_counts`: one tally per section id. */
  type SectionCounts = map<string, Tally>

  /** `section_exercise_counts.get(section_id, {})`. */
  function TallyFor(counts: SectionCounts, sectionId: string): Tally
  {
    if sectionId in counts then counts[sectionId] else []
  }

  /** `section_exercise_counts.get(section_id, {}).get(equipment, 0)`. */
  function CountIn(counts: SectionCounts, sectionId: string, equipment: string): nat
  {
    Get(TallyFor(counts, sectionId), equipment)
  }
}
