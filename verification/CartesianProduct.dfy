/**
 The meaning of a cartesian product: all combinations of rows, the first table running fastest.
 */
module CartesianProduct {
  import opened Tables
  import opened CartesianArithmetic

  /** Each row of `t`, followed by `q`. */
  function Extend(t: seq<Row>, q: Row): (r: seq<Row>)
    ensures |r| == |t|
  {
    seq(|t|, i requires 0 <= i < |t| => t[i] + q)
  }

  /** For each row of `qs` in turn, all rows of `t` followed by it. */
  function Spread(t: seq<Row>, qs: seq<Row>): seq<Row> {
    if qs == [] then [] else Extend(t, qs[0]) + Spread(t, qs[1..])
  }

  /** All combinations of one row per table. The first table varies fastest. */
  function Product(ts: seq<seq<Row>>): seq<Row> {
    if ts == [] then [[]] else Spread(ts[0], Product(ts[1..]))
  }

  function Volume(ts: seq<seq<Row>>): nat {
    if ts == [] then 1 else |ts[0]| * Volume(ts[1..])
  }

  lemma {:induction false} SpreadSize(t: seq<Row>, qs: seq<Row>)
    ensures |Spread(t, qs)| == |t| * |qs|
  {
    if qs != [] {
      SpreadSize(t, qs[1..]);
      Distribute(1, |qs| - 1, |t|);
    }
  }

  lemma {:induction false} SpreadAt(t: seq<Row>, qs: seq<Row>, n: nat)
    requires n < |Spread(t, qs)|
    ensures |t| > 0 && n / |t| < |qs|
    ensures Spread(t, qs)[n] == t[n % |t|] + qs[n / |t|]
  {
    var m := |t|;
    if n < m {
      DivModUnique(n, m, 0, n);
    } else {
      SpreadAt(t, qs[1..], n - m);
      SubtractMultiple(n, m, 1);
      assert qs[1..][(n - m) / m] == qs[n / m];
    }
  }

  lemma {:induction false} ProductSize(ts: seq<seq<Row>>)
    ensures |Product(ts)| == Volume(ts)
  {
    if ts != [] {
      ProductSize(ts[1..]);
      SpreadSize(ts[0], Product(ts[1..]));
    }
  }

  lemma {:induction false} VolumeSnoc(ts: seq<seq<Row>>, t: seq<Row>)
    ensures Volume(ts + [t]) == Volume(ts) * |t|
  {
    if ts == [] {
      assert (ts + [t])[1..] == [];
    } else {
      assert (ts + [t])[1..] == ts[1..] + [t];
      VolumeSnoc(ts[1..], t);
      Associate(|ts[0]|, Volume(ts[1..]), |t|);
    }
  }

  // ---- The last table in blocks -----------------------------------------------------------------

  lemma {:induction false} SpreadAppend(t: seq<Row>, a: seq<Row>, b: seq<Row>)
    ensures Spread(t, a + b) == Spread(t, a) + Spread(t, b)
  {
    if a == [] {
      assert a + b == b;
    } else {
      assert (a + b)[1..] == a[1..] + b;
      SpreadAppend(t, a[1..], b);
    }
  }

  lemma ProductOne(t: seq<Row>)
    ensures Product([t]) == t
  {
    assert Product([t][1..]) == [[]];
    assert Spread(t, [[]]) == Extend(t, []) + Spread(t, [[]][1..]);
    forall i | 0 <= i < |t|
      ensures Extend(t, [])[i] == t[i]
    {}
  }

  /** Cutting the last table cuts the product, because the last table varies slowest. */
  lemma {:induction false} ProductLastAppend(ts: seq<seq<Row>>, a: seq<Row>, b: seq<Row>)
    ensures Product(ts + [a + b]) == Product(ts + [a]) + Product(ts + [b])
  {
    if ts == [] {
      assert ts + [a + b] == [a + b] && ts + [a] == [a] && ts + [b] == [b];
      ProductOne(a + b);
      ProductOne(a);
      ProductOne(b);
    } else {
      forall x: seq<Row>
        ensures (ts + [x])[1..] == ts[1..] + [x]
      {}
      ProductLastAppend(ts[1..], a, b);
      SpreadAppend(ts[0], Product(ts[1..] + [a]), Product(ts[1..] + [b]));
    }
  }

  lemma ProductLastEmpty(ts: seq<seq<Row>>)
    ensures Product(ts + [[]]) == []
  {
    VolumeSnoc(ts, []);
    ProductSize(ts + [[]]);
  }

  lemma {:induction false} ProductWithEmpty(ts: seq<seq<Row>>, k: nat)
    requires k < |ts| && ts[k] == []
    ensures Product(ts) == []
  {
    if k == 0 {
      SpreadSize([], Product(ts[1..]));
    } else {
      ProductWithEmpty(ts[1..], k - 1);
    }
  }

  // ---- Every combination exactly once -------------------------------------------------------------

  /** The row numbers that row `n` of the product combines. */
  function Digits(ts: seq<seq<Row>>, n: nat): (d: seq<nat>)
    requires forall k | 0 <= k < |ts| :: ts[k] != []
    ensures |d| == |ts|
  {
    if ts == [] then [] else [n % |ts[0]|] + Digits(ts[1..], n / |ts[0]|)
  }

  /** The position at which a choice of row numbers appears. */
  function Position(ts: seq<seq<Row>>, d: seq<nat>): nat
    requires |d| == |ts|
  {
    if ts == [] then 0 else d[0] + Position(ts[1..], d[1..]) * |ts[0]|
  }

  function Pick(ts: seq<seq<Row>>, d: seq<nat>): Row
    requires |d| == |ts| && forall k | 0 <= k < |ts| :: d[k] < |ts[k]|
  {
    if ts == [] then [] else ts[0][d[0]] + Pick(ts[1..], d[1..])
  }

  /** Row `n` of the product combines exactly the rows its mixed-radix digits name. */
  lemma {:induction false} ProductPicks(ts: seq<seq<Row>>, n: nat)
    requires n < |Product(ts)|
    ensures forall k | 0 <= k < |ts| :: ts[k] != []
    ensures forall k | 0 <= k < |ts| :: Digits(ts, n)[k] < |ts[k]|
    ensures Product(ts)[n] == Pick(ts, Digits(ts, n))
    ensures Position(ts, Digits(ts, n)) == n
  {
    if ts != [] {
      SpreadAt(ts[0], Product(ts[1..]), n);
      ProductPicks(ts[1..], n / |ts[0]|);
      var d := Digits(ts[1..], n / |ts[0]|);
      forall k | 0 <= k < |ts|
        ensures ts[k] != [] && ([n % |ts[0]|] + d)[k] < |ts[k]|
      {
        if k > 0 {
          assert ts[k] == ts[1..][k - 1];
        }
      }
      assert Digits(ts, n) == [n % |ts[0]|] + d;
      assert Digits(ts, n)[1..] == d;
      DivModDef(n, |ts[0]|);
    }
  }

  /** Every combination of row numbers is the digit sequence of one and only one position. */
  lemma {:induction false} EveryCombinationOnce(ts: seq<seq<Row>>, d: seq<nat>)
    requires |d| == |ts| && forall k | 0 <= k < |ts| :: d[k] < |ts[k]|
    ensures Position(ts, d) < |Product(ts)|
    ensures Digits(ts, Position(ts, d)) == d
    ensures forall n | 0 <= n < |Product(ts)| && Digits(ts, n) == d :: n == Position(ts, d)
  {
    forall n | 0 <= n < |Product(ts)|
      ensures Position(ts, Digits(ts, n)) == n
    {
      ProductPicks(ts, n);
    }
    if ts != [] {
      var m := |ts[0]|;
      EveryCombinationOnce(ts[1..], d[1..]);
      var p := Position(ts[1..], d[1..]);
      DivModUnique(d[0] + p * m, m, p, d[0]);
      SpreadSize(ts[0], Product(ts[1..]));
      InGrid(p, d[0], |Product(ts[1..])|, m);
    }
  }
}
