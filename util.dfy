/** Small generic building blocks shared by the class-builder model. */
module Util {

  datatype Option<+T> = None | Some(value: T)

  datatype Result<+R, +E> = Success(value: R) | Failure(error: E)

  function Min(a: int, b: int): int { if a <= b then a else b }

  /** Elements of `xs` satisfying `p`, in their original order (a Python list comprehension). */
  function Filter<T(!new)>(xs: seq<T>, p: T -> bool): (r: seq<T>)
    ensures |r| <= |xs|
    ensures forall x :: x in r <==> x in xs && p(x)
  {
    if xs == [] then []
    else
      assert xs == [xs[0]] + xs[1..];
      (if p(xs[0]) then [xs[0]] else []) + Filter(xs[1..], p)
  }

  /** Elements of `xs` NOT satisfying `p`, in their original order. */
  function Reject<T(!new)>(xs: seq<T>, p: T -> bool): (r: seq<T>)
    ensures |r| <= |xs|
    ensures forall x :: x in r <==> x in xs && !p(x)
  {
    Filter(xs, x => !p(x))
  }

  /** Filtering keeps every kept element as often as the input has it, and no other. */
  lemma {:induction false} FilterMultiset<T(!new)>(xs: seq<T>, p: T -> bool, x: T)
    ensures multiset(Filter(xs, p))[x] == if p(x) then multiset(xs)[x] else 0
  {
    if xs != [] {
      FilterMultiset(xs[1..], p, x);
      assert xs == [xs[0]] + xs[1..];
    }
  }

  /** A filter and its complementary reject split the multiset of the input. */
  lemma SplitMultiset<T(!new)>(xs: seq<T>, p: T -> bool)
    ensures multiset(Reject(xs, p)) + multiset(Filter(xs, p)) == multiset(xs)
  {
    forall x ensures (multiset(Reject(xs, p)) + multiset(Filter(xs, p)))[x] == multiset(xs)[x] {
      FilterMultiset(xs, p, x);
      FilterMultiset(xs, y => !p(y), x);
    }
  }

  /** Filtering with a predicate that holds everywhere keeps everything. */
  lemma {:induction false} FilterAll<T(!new)>(xs: seq<T>, p: T -> bool)
    requires forall x :: x in xs ==> p(x)
    ensures Filter(xs, p) == xs
  {
    if xs != [] {
      FilterAll(xs[1..], p);
    }
  }

  /** Filtering with a predicate that holds nowhere keeps nothing. */
  lemma {:induction false} FilterNone<T(!new)>(xs: seq<T>, p: T -> bool)
    requires forall x :: x in xs ==> !p(x)
    ensures Filter(xs, p) == []
  {
    if xs != [] {
      FilterNone(xs[1..], p);
    }
  }

  /** Filtering depends only on the predicate's values on the sequence. */
  lemma {:induction false} FilterAgree<T(!new)>(xs: seq<T>, p: T -> bool, q: T -> bool)
    requires forall x :: x in xs ==> p(x) == q(x)
    ensures Filter(xs, p) == Filter(xs, q)
  {
    if xs != [] {
      FilterAgree(xs[1..], p, q);
    }
  }

  /** Filtering distributes over appending one element. */
  lemma {:induction false} FilterSnoc<T(!new)>(xs: seq<T>, x: T, p: T -> bool)
    ensures Filter(xs + [x], p) == Filter(xs, p) + (if p(x) then [x] else [])
  {
    var ys := xs + [x];
    if xs == [] {
      assert ys[1..] == [];
    } else {
      assert ys[0] == xs[0] && ys[1..] == xs[1..] + [x];
      FilterSnoc(xs[1..], x, p);
      var head := if p(xs[0]) then [xs[0]] else [];
      calc {
        Filter(ys, p);
        head + Filter(xs[1..] + [x], p);
        head + (Filter(xs[1..], p) + (if p(x) then [x] else []));
        (head + Filter(xs[1..], p)) + (if p(x) then [x] else []);
      }
    }
  }

  /** Stable partition: the elements failing `p`, then the elements satisfying it. */
  function Partition<T(!new)>(xs: seq<T>, p: T -> bool): (r: seq<T>)
    ensures multiset(r) == multiset(xs)
    ensures |r| == |xs|
    ensures forall i, j :: 0 <= i < j < |r| && p(r[i]) ==> p(r[j])
  {
    var a, b := Reject(xs, p), Filter(xs, p);
    SplitMultiset(xs, p);
    FailingFirst(a, b, p);
    assert |multiset(a + b)| == |multiset(xs)|;
    a + b
  }

  /** Elements failing `p` followed by elements satisfying it: `p` holds exactly from position `|a|` on. */
  lemma FailingFirst<T>(a: seq<T>, b: seq<T>, p: T -> bool)
    requires forall x :: x in a ==> !p(x)
    requires forall x :: x in b ==> p(x)
    ensures forall k :: 0 <= k < |a + b| ==> (p((a + b)[k]) <==> k >= |a|)
  {
    var r := a + b;
    forall k | 0 <= k < |r| ensures p(r[k]) <==> k >= |a| {
      if k < |a| {
        assert r[k] == a[k] && a[k] in a;
      } else {
        assert r[k] == b[k - |a|] && b[k - |a|] in b;
      }
    }
  }

  /** Each group of a stable partition keeps the relative order it had in a duplicate-free input. */
  lemma PartitionIsStable<T(!new)>(xs: seq<T>, p: T -> bool, i: nat, j: nat)
    requires Distinct(xs)
    requires i < j < |Partition(xs, p)| && p(Partition(xs, p)[i]) == p(Partition(xs, p)[j])
    ensures Partition(xs, p)[i] in xs && Partition(xs, p)[j] in xs
    ensures IndexOf(xs, Partition(xs, p)[i]) < IndexOf(xs, Partition(xs, p)[j])
  {
    var a, b := Reject(xs, p), Filter(xs, p);
    FailingFirst(a, b, p);
    var r := Partition(xs, p);
    assert r == a + b;
    assert (p(r[i]) <==> i >= |a|) && (p(r[j]) <==> j >= |a|);
    if j < |a| {
      assert r[i] == a[i] && r[j] == a[j];
      RejectKeepsOrder(xs, p, i, j);
    } else {
      assert |a| <= i;
      assert r[i] == b[i - |a|] && r[j] == b[j - |a|];
      FilterKeepsOrder(xs, p, i - |a|, j - |a|);
    }
  }

  /** When no element satisfies `p` the partition is the identity. */
  lemma PartitionNoneHolds<T(!new)>(xs: seq<T>, p: T -> bool)
    requires forall x :: x in xs ==> !p(x)
    ensures Partition(xs, p) == xs
  {
    RejectAll(xs, p);
    FilterNone(xs, p);
  }

  lemma RejectAll<T(!new)>(xs: seq<T>, p: T -> bool)
    requires forall x :: x in xs ==> !p(x)
    ensures Reject(xs, p) == xs
  {
    FilterAll(xs, x => !p(x));
  }

  /** Position of the first occurrence of `x` in `xs`. */
  function IndexOf<T(==)>(xs: seq<T>, x: T): (i: nat)
    requires x in xs
    ensures i < |xs| && xs[i] == x
    ensures forall j :: 0 <= j < i ==> xs[j] != x
  {
    if xs[0] == x then 0 else 1 + IndexOf(xs[1..], x)
  }

  /** Each position is larger than every earlier one. */
  predicate StrictlyIncreasing(s: seq<nat>)
  {
    forall a, b :: 0 <= a < b < |s| ==> s[a] < s[b]
  }

  /** No element occurs twice. */
  predicate Distinct<T(==)>(xs: seq<T>)
  {
    forall i, j :: 0 <= i < j < |xs| ==> xs[i] != xs[j]
  }

  /** Filtering keeps the relative order of the kept elements of a duplicate-free sequence. */
  lemma FilterKeepsOrder<T(!new)>(xs: seq<T>, p: T -> bool, i: nat, j: nat)
    requires Distinct(xs)
    requires i < j < |Filter(xs, p)|
    ensures Filter(xs, p)[i] in xs && Filter(xs, p)[j] in xs
    ensures IndexOf(xs, Filter(xs, p)[i]) < IndexOf(xs, Filter(xs, p)[j])
  {
    var ix := KeptPositions(xs, p);
    IndexOfDistinct(xs, ix[i]);
    IndexOfDistinct(xs, ix[j]);
  }

  /** The positions in `xs` of the elements `Filter` keeps, in increasing order. */
  ghost function KeptPositions<T(!new)>(xs: seq<T>, p: T -> bool): (ix: seq<nat>)
    ensures Locates(xs, Filter(xs, p), ix)
  {
    if xs == [] then []
    else
      var rest := KeptPositions(xs[1..], p);
      if p(xs[0]) then
        FilterConsKept(xs, p);
        LocatesCons(xs, Filter(xs[1..], p), rest);
        [0] + Shifted(rest)
      else
        LocatesSkip(xs, Filter(xs[1..], p), rest);
        Shifted(rest)
  }

  /** `KeptPositions` lists exactly the positions whose element `p` keeps. */
  lemma {:induction false} KeptPositionsExact<T(!new)>(xs: seq<T>, p: T -> bool)
    ensures forall i :: 0 <= i < |xs| ==> (i in KeptPositions(xs, p) <==> p(xs[i]))
  {
    if xs != [] {
      var rest := KeptPositions(xs[1..], p);
      KeptPositionsExact(xs[1..], p);
      forall i | 0 < i < |xs| ensures i in Shifted(rest) <==> p(xs[i]) {
        assert xs[1..][i - 1] == xs[i];
        ShiftedMember(rest, i - 1);
      }
      assert 0 !in Shifted(rest);
    }
  }

  lemma ShiftedMember(rest: seq<nat>, m: nat)
    ensures m + 1 in Shifted(rest) <==> m in rest
  {
    if m in rest {
      var k :| 0 <= k < |rest| && rest[k] == m;
      assert Shifted(rest)[k] == m + 1;
    }
  }

  /** Every position moved one place on. */
  function Shifted(rest: seq<nat>): (r: seq<nat>)
    ensures |r| == |rest| && forall k :: 0 <= k < |rest| ==> r[k] == rest[k] + 1
  {
    seq(|rest|, k requires 0 <= k < |rest| => rest[k] + 1)
  }

  /** `ix` lists, in increasing order, positions of `xs` holding the elements of `r` one by one. */
  ghost predicate Locates<T>(xs: seq<T>, r: seq<T>, ix: seq<nat>)
  {
    && |ix| == |r| && StrictlyIncreasing(ix)
    && forall k :: 0 <= k < |ix| ==> ix[k] < |xs| && r[k] == xs[ix[k]]
  }

  /** Putting the head of `xs` in front keeps the located elements located. */
  lemma LocatesCons<T>(xs: seq<T>, tail: seq<T>, rest: seq<nat>)
    requires xs != [] && Locates(xs[1..], tail, rest)
    ensures Locates(xs, [xs[0]] + tail, [0] + Shifted(rest))
  {
    var r, ix := [xs[0]] + tail, [0] + Shifted(rest);
    forall k | 0 < k < |ix| ensures ix[k] < |xs| && r[k] == xs[ix[k]] {
      assert ix[k] == rest[k - 1] + 1 && r[k] == tail[k - 1];
      assert xs[1..][rest[k - 1]] == xs[rest[k - 1] + 1];
    }
    ConsShiftedIncreasing(rest);
  }

  /** Position 0 followed by increasing positions moved one place on is increasing. */
  lemma ConsShiftedIncreasing(rest: seq<nat>)
    requires StrictlyIncreasing(rest)
    ensures StrictlyIncreasing([0] + Shifted(rest))
  {
    var ix := [0] + Shifted(rest);
    forall a, b | 0 <= a < b < |ix| ensures ix[a] < ix[b] {
      if 0 < a {
        assert ix[a] == rest[a - 1] + 1 && ix[b] == rest[b - 1] + 1;
      }
    }
  }

  /** Skipping the head of `xs` keeps the located elements located. */
  lemma LocatesSkip<T>(xs: seq<T>, tail: seq<T>, rest: seq<nat>)
    requires xs != [] && Locates(xs[1..], tail, rest)
    ensures Locates(xs, tail, Shifted(rest))
  {
    forall k | 0 <= k < |rest| ensures rest[k] + 1 < |xs| && tail[k] == xs[rest[k] + 1] {
      assert xs[1..][rest[k]] == xs[rest[k] + 1];
    }
  }

  /** A kept head stays in front of the filtered tail. */
  lemma FilterConsKept<T(!new)>(xs: seq<T>, p: T -> bool)
    requires xs != [] && p(xs[0])
    ensures Filter(xs, p) == [xs[0]] + Filter(xs[1..], p)
  {
  }

  /** In a duplicate-free sequence the first occurrence of the element at `m` is `m`. */
  lemma IndexOfDistinct<T>(xs: seq<T>, m: nat)
    requires Distinct(xs) && m < |xs|
    ensures xs[m] in xs && IndexOf(xs, xs[m]) == m
  {
    var k := IndexOf(xs, xs[m]);
    assert k <= m;
  }

  /** Rejecting keeps the relative order of the remaining elements of a duplicate-free sequence. */
  lemma RejectKeepsOrder<T(!new)>(xs: seq<T>, p: T -> bool, i: nat, j: nat)
    requires Distinct(xs)
    requires i < j < |Reject(xs, p)|
    ensures Reject(xs, p)[i] in xs && Reject(xs, p)[j] in xs
    ensures IndexOf(xs, Reject(xs, p)[i]) < IndexOf(xs, Reject(xs, p)[j])
  {
    FilterKeepsOrder(xs, x => !p(x), i, j);
  }

  /** A sequence has at least as many positions as distinct elements. */
  lemma {:induction false} ElementCount<T>(s: seq<T>)
    ensures |set x | x in s| <= |s|
  {
    if s != [] {
      ElementCount(s[1..]);
      assert (set x | x in s) == (set x | x in s[1..]) + {s[0]};
    }
  }

  lemma TakeSnoc<T>(s: seq<T>, i: nat)
    requires i < |s|
    ensures s[..i + 1] == s[..i] + [s[i]]
  {
  }

  lemma AppendAssoc<T>(a: seq<T>, b: seq<T>, c: seq<T>)
    ensures a + (b + c) == (a + b) + c
  {
  }

  /** A subset is no larger than its superset. */
  lemma SubsetCardinality<T>(a: set<T>, b: set<T>)
    requires a <= b
    ensures |a| <= |b|
  {
    assert b == a + (b - a);
  }

  /** A sequence one longer than its prefix `p` is `p` and its last element. */
  lemma SnocOfPrefix<T>(t: seq<T>, p: seq<T>)
    requires |t| == |p| + 1 && t[..|p|] == p
    ensures t == p + [t[|p|]]
  {
  }

  /** Appending does not change a prefix. */
  lemma PrefixOfSnoc<T>(xs: seq<T>, x: T, i: nat)
    requires i <= |xs|
    ensures (xs + [x])[..i] == xs[..i]
  {
  }

  /** The element just after a prefix can be moved into it. */
  lemma SplitAt<T>(done: seq<T>, rest: seq<T>)
    requires rest != []
    ensures (done + rest)[|done|] == rest[0]
    ensures done + rest == (done + [rest[0]]) + rest[1..]
  {
  }

  /** Updating the element just after a prefix extends the prefix by the new value. */
  lemma UpdateSplit<T>(done: seq<T>, rest: seq<T>, x: T)
    requires rest != []
    ensures (done + rest)[|done| := x] == (done + [x]) + rest[1..]
  {
  }

  /** Sequences that agree at every position are equal. */
  lemma Pointwise<T>(a: seq<T>, b: seq<T>)
    requires |a| == |b| && forall i :: 0 <= i < |a| ==> a[i] == b[i]
    ensures a == b
  {
  }

  /** Dropping one more element from a suffix. */
  lemma DropOne<T>(s: seq<T>, j: nat)
    requires j < |s|
    ensures s[j..][0] == s[j] && s[j..][1..] == s[j + 1..]
  {
  }
}
