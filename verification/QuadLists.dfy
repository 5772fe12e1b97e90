/**
 Sorted lists of quads: sorting without duplicates, and differences by merging.
 */
module QuadLists {
  import opened Tables
  import opened UpdateTemplates

  predicate Less(a: Quad, b: Quad) {
    || a.s < b.s
    || (a.s == b.s && a.p < b.p)
    || (a.s == b.s && a.p == b.p && a.o < b.o)
    || (a.s == b.s && a.p == b.p && a.o == b.o && a.g < b.g)
  }

  function Ids(q: Quad): seq<Id> {
    [q.s, q.p, q.o, q.g]
  }

  ghost predicate DifferFirstAt(a: Quad, b: Quad, k: nat) {
    k < 4 && Ids(a)[k] != Ids(b)[k] && forall i | 0 <= i < k :: Ids(a)[i] == Ids(b)[i]
  }

  /** The order is total, and decided by the first of subject, predicate, object and graph that differ. */
  lemma LessIff(a: Quad, b: Quad)
    ensures Less(a, b) <==> exists k: nat :: DifferFirstAt(a, b, k) && Ids(a)[k] < Ids(b)[k]
    ensures !Less(a, b) && !Less(b, a) <==> a == b
  {
    if a != b {
      var k := if a.s != b.s then 0 else if a.p != b.p then 1 else if a.o != b.o then 2 else 3;
      assert DifferFirstAt(a, b, k);
      forall l: nat | DifferFirstAt(a, b, l)
        ensures l == k
      {}
    }
  }

  ghost predicate Sorted(qs: seq<Quad>) {
    forall i, j | 0 <= i < j < |qs| :: !Less(qs[j], qs[i])
  }

  ghost predicate StrictlySorted(qs: seq<Quad>) {
    forall i, j | 0 <= i < j < |qs| :: Less(qs[i], qs[j])
  }

  ghost function QuadSet(qs: seq<Quad>): set<Quad> {
    set q | q in qs
  }

  lemma StrictlySortedIsSorted(qs: seq<Quad>)
    requires StrictlySorted(qs)
    ensures Sorted(qs)
  {}

  /** A strictly sorted list has every quad once. */
  lemma {:induction false} StrictlySortedSize(qs: seq<Quad>)
    requires StrictlySorted(qs)
    ensures |qs| == |QuadSet(qs)| && forall q :: multiset(qs)[q] <= 1
  {
    if qs != [] {
      var n := |qs| - 1;
      StrictlySortedSize(qs[..n]);
      assert qs == qs[..n] + [qs[n]];
      assert qs[n] !in qs[..n];
      assert QuadSet(qs) == QuadSet(qs[..n]) + {qs[n]};
    }
  }

  /** Only one strictly sorted list has a given set of quads: the order in which they were found leaves
      no trace. */
  lemma {:induction false} StrictlySortedUnique(a: seq<Quad>, b: seq<Quad>)
    requires StrictlySorted(a) && StrictlySorted(b) && QuadSet(a) == QuadSet(b)
    ensures a == b
  {
    StrictlySortedSize(a);
    StrictlySortedSize(b);
    if a != [] {
      var n := |a| - 1;
      LastIsLargest(a, b);
      assert a == a[..n] + [a[n]] && b == b[..n] + [b[n]];
      SetWithoutLast(a);
      SetWithoutLast(b);
      StrictlySortedUnique(a[..n], b[..n]);
    }
  }

  lemma LastIsLargest(a: seq<Quad>, b: seq<Quad>)
    requires a != [] && |a| == |b| && StrictlySorted(a) && StrictlySorted(b) && QuadSet(a) == QuadSet(b)
    ensures a[|a| - 1] == b[|b| - 1]
  {
    assert a[|a| - 1] in QuadSet(b) && b[|b| - 1] in QuadSet(a);
    AtMostLast(a, b[|b| - 1]);
    AtMostLast(b, a[|a| - 1]);
  }

  lemma AtMostLast(qs: seq<Quad>, q: Quad)
    requires StrictlySorted(qs) && q in qs
    ensures q == qs[|qs| - 1] || Less(q, qs[|qs| - 1])
  {
    var i :| 0 <= i < |qs| && qs[i] == q;
  }

  lemma SetWithoutLast(a: seq<Quad>)
    requires a != [] && StrictlySorted(a)
    ensures QuadSet(a[..|a| - 1]) == QuadSet(a) - {a[|a| - 1]}
  {
    var n := |a| - 1;
    assert a == a[..n] + [a[n]];
    assert a[n] !in a[..n];
  }

  // ---- Sorting ----------------------------------------------------------------------------------------

  /** The algorithm behind sorting is not part of the model; any one will do. */
  method Sort(qs: seq<Quad>) returns (r: seq<Quad>)
    ensures Sorted(r) && multiset(r) == multiset(qs)
  {
    r := [];
    for k := 0 to |qs|
      invariant Sorted(r) && multiset(r) == multiset(qs[..k])
    {
      assert qs[..k + 1] == qs[..k] + [qs[k]];
      r := Insert(r, qs[k]);
    }
    assert qs[..|qs|] == qs;
  }

  method Insert(qs: seq<Quad>, q: Quad) returns (r: seq<Quad>)
    requires Sorted(qs)
    ensures Sorted(r) && multiset(r) == multiset(qs) + multiset{q}
  {
    var i := 0;
    while i < |qs| && Less(qs[i], q)
      invariant 0 <= i <= |qs|
      invariant forall k | 0 <= k < i :: Less(qs[k], q)
    {
      i := i + 1;
    }
    assert qs == qs[..i] + qs[i..];
    r := qs[..i] + [q] + qs[i..];
    forall j, k | 0 <= j < k < |r|
      ensures !Less(r[k], r[j])
    {
      InsertedInOrder(qs, i, q, j, k);
    }
  }

  lemma InsertedInOrder(qs: seq<Quad>, i: nat, q: Quad, j: nat, k: nat)
    requires Sorted(qs) && i <= |qs| && (i < |qs| ==> !Less(qs[i], q)) && forall l | 0 <= l < i :: Less(qs[l], q)
    requires j < k <= |qs|
    ensures var r := qs[..i] + [q] + qs[i..]; !Less(r[k], r[j])
  {
    if j < i <= k {
      assert j < i && (k == i || !Less(qs[k - 1], qs[i]));
    }
  }

  lemma QuadSetSnoc(qs: seq<Quad>, q: Quad)
    ensures QuadSet(qs + [q]) == QuadSet(qs) + {q}
  {}

  lemma SnocLarger(qs: seq<Quad>, q: Quad)
    requires StrictlySorted(qs) && (qs != [] ==> Less(qs[|qs| - 1], q))
    ensures StrictlySorted(qs + [q])
  {}

  /** Drops every element that equals the one before it. */
  method Unique(qs: seq<Quad>) returns (r: seq<Quad>)
    requires Sorted(qs)
    ensures StrictlySorted(r) && QuadSet(r) == QuadSet(qs)
  {
    r := [];
    for k := 0 to |qs|
      invariant StrictlySorted(r) && QuadSet(r) == QuadSet(qs[..k])
      invariant k > 0 ==> r != [] && r[|r| - 1] == qs[k - 1]
      invariant k == 0 ==> r == []
    {
      assert qs[..k + 1] == qs[..k] + [qs[k]];
      QuadSetSnoc(qs[..k], qs[k]);
      assert k > 0 && qs[k] != qs[k - 1] ==> Less(qs[k - 1], qs[k]);
      hide StrictlySorted, QuadSet, Sorted, Less;
      if k == 0 || qs[k] != qs[k - 1] {
        SnocLarger(r, qs[k]);
        QuadSetSnoc(r, qs[k]);
        r := r + [qs[k]];
      } else {
        LastIsIn(r);
      }
    }
    assert qs[..|qs|] == qs;
  }

  lemma LastIsIn(qs: seq<Quad>)
    requires qs != []
    ensures QuadSet(qs) + {qs[|qs| - 1]} == QuadSet(qs)
  {}

  method SortAndRemoveDuplicates(container: seq<Quad>) returns (r: seq<Quad>)
    ensures StrictlySorted(r)
    ensures QuadSet(r) == QuadSet(container)
  {
    var sorted := Sort(container);
    assert forall q :: q in sorted <==> q in multiset(sorted);
    assert forall q :: q in container <==> q in multiset(container);
    r := Unique(sorted);
  }

  // ---- Differences --------------------------------------------------------------------------------------

  lemma SmallerThanAll(q: Quad, qs: seq<Quad>, k: nat)
    requires Sorted(qs) && k < |qs| && Less(q, qs[k])
    ensures q !in multiset(qs[k..])
  {
    forall i | k <= i < |qs|
      ensures Less(q, qs[i])
    {
      assert i == k || !Less(qs[i], qs[k]);
    }
    assert forall x | x in qs[k..] :: Less(q, x);
  }

  lemma Pop(qs: seq<Quad>, k: nat)
    requires k < |qs|
    ensures multiset(qs[k..]) == multiset{qs[k]} + multiset(qs[k + 1..])
  {
    assert qs[k..] == [qs[k]] + qs[k + 1..];
  }

  /** What is still to come of the difference. */
  ghost function Rest(a: seq<Quad>, i: nat, b: seq<Quad>, j: nat): multiset<Quad>
    requires i <= |a| && j <= |b|
  {
    multiset(a[i..]) - multiset(b[j..])
  }

  lemma Emit(a: seq<Quad>, i: nat, b: seq<Quad>, j: nat)
    requires i < |a| && j < |b| && Sorted(b) && Less(a[i], b[j])
    ensures Rest(a, i, b, j) == multiset{a[i]} + Rest(a, i + 1, b, j)
  {
    Pop(a, i);
    SmallerThanAll(a[i], b, j);
  }

  lemma Skip(a: seq<Quad>, i: nat, b: seq<Quad>, j: nat)
    requires i < |a| && j < |b| && Sorted(a) && Less(b[j], a[i])
    ensures Rest(a, i, b, j) == Rest(a, i, b, j + 1)
  {
    Pop(b, j);
    SmallerThanAll(b[j], a, i);
  }

  lemma SkipBoth(a: seq<Quad>, i: nat, b: seq<Quad>, j: nat)
    requires i < |a| && j < |b| && a[i] == b[j]
    ensures Rest(a, i, b, j) == Rest(a, i + 1, b, j + 1)
  {
    Pop(a, i);
    Pop(b, j);
  }

  /** For sorted lists: the sorted list in which each quad occurs as often as it does more often in `a`
      than in `b`. */
  method SetMinus(a: seq<Quad>, b: seq<Quad>) returns (r: seq<Quad>)
    requires Sorted(a) && Sorted(b)
    ensures Sorted(r) && multiset(r) == multiset(a) - multiset(b)
    ensures StrictlySorted(a) ==> StrictlySorted(r)
  {
    hide Less, Sorted, StrictlySorted, Rest, Ahead;
    r := [];
    var i, j := 0, 0;
    Start(a, b);
    while i < |a| && j < |b|
      invariant 0 <= i <= |a| && 0 <= j <= |b|
      invariant multiset(r) + Rest(a, i, b, j) == multiset(a) - multiset(b)
      invariant Ahead(r, a, i)
    {
      if Less(a[i], b[j]) {
        Emit(a, i, b, j);
        TakeNext(r, a, i);
        r := r + [a[i]];
        i := i + 1;
      } else if Less(b[j], a[i]) {
        assert Less(b[j], a[i]);
        Skip(a, i, b, j);
        j := j + 1;
      } else {
        Equal(a[i], b[j]);
        SkipBoth(a, i, b, j);
        PassNext(r, a, i);
        i, j := i + 1, j + 1;
      }
    }
    TakeRest(r, a, i);
    OnlyRest(a, i, b, j);
    return r + a[i..];
  }

  /** The elements of `r` were taken from before position `i` of `a`, in order. */
  ghost predicate Ahead(r: seq<Quad>, a: seq<Quad>, i: nat)
    requires i <= |a|
  {
    && Sorted(r) && (StrictlySorted(a) ==> StrictlySorted(r))
    && forall x | x in r :: x in a[..i]
  }

  lemma Start(a: seq<Quad>, b: seq<Quad>)
    ensures Rest(a, 0, b, 0) == multiset(a) - multiset(b) && Ahead([], a, 0)
  {
    assert a[0..] == a && b[0..] == b;
  }

  lemma Equal(x: Quad, y: Quad)
    requires !Less(x, y) && !Less(y, x)
    ensures x == y
  {}

  lemma TakeNext(r: seq<Quad>, a: seq<Quad>, i: nat)
    requires i < |a| && Sorted(a) && Ahead(r, a, i)
    ensures Ahead(r + [a[i]], a, i + 1)
  {
    forall k | 0 <= k < |r|
      ensures !Less(a[i], r[k]) && (StrictlySorted(a) ==> Less(r[k], a[i]))
    {
      assert r[k] in r;
      var m :| 0 <= m < i && a[m] == r[k];
    }
    PassNext(r, a, i);
    assert a[i] in a[..i + 1];
  }

  lemma PassNext(r: seq<Quad>, a: seq<Quad>, i: nat)
    requires i < |a| && Ahead(r, a, i)
    ensures Ahead(r, a, i + 1)
  {
    assert a[..i + 1] == a[..i] + [a[i]];
  }

  lemma OnlyRest(a: seq<Quad>, i: nat, b: seq<Quad>, j: nat)
    requires i <= |a| && j <= |b| && (i == |a| || j == |b|)
    ensures Rest(a, i, b, j) == multiset(a[i..])
  {}

  lemma TakeRest(r: seq<Quad>, a: seq<Quad>, i: nat)
    requires i <= |a| && Sorted(a) && Ahead(r, a, i)
    ensures Sorted(r + a[i..]) && (StrictlySorted(a) ==> StrictlySorted(r + a[i..]))
  {
    forall x, k | x in r && i <= k < |a|
      ensures !Less(a[k], x) && (StrictlySorted(a) ==> Less(x, a[k]))
    {
      var m :| 0 <= m < i && a[m] == x;
    }
    assert forall k | 0 <= k < |r| :: r[k] in r;
  }

  /** On strictly sorted lists, this is the difference of sets. */
  lemma SetMinusIsSetDifference(a: seq<Quad>, b: seq<Quad>, r: seq<Quad>)
    requires StrictlySorted(a) && multiset(r) == multiset(a) - multiset(b)
    ensures QuadSet(r) == QuadSet(a) - QuadSet(b)
  {
    StrictlySortedSize(a);
    forall q: Quad
      ensures q in QuadSet(r) <==> q in QuadSet(a) && q !in QuadSet(b)
    {
      assert q in r <==> multiset(r)[q] > 0;
      assert q in a <==> multiset(a)[q] > 0;
      assert q in b <==> multiset(b)[q] > 0;
    }
  }
}
