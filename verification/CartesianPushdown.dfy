/**
 The cartesian product operation as a whole: a LIMIT is pushed down into the children, the results
 are combined eagerly or lazily, and the outcome is the requested part of the full product.
 */
module CartesianPushdown {
  import opened Tables
  import opened CartesianArithmetic
  import opened CartesianProduct
  import opened CartesianProductJoin

  const UINT64_MAX: nat := 0xFFFF_FFFF_FFFF_FFFF

  function LimitOrDefault(limit: Option<nat>): nat {
    match limit
    case Some(l) => l
    case None => UINT64_MAX
  }

  // ---- Children ---------------------------------------------------------------------------------

  ghost predicate Wide(rows: seq<Row>, width: nat) {
    forall i | 0 <= i < |rows| :: |rows[i]| == width
  }

  ghost predicate AllWide(blocks: seq<seq<Row>>, width: nat) {
    forall b | 0 <= b < |blocks| :: Wide(blocks[b], width)
  }

  /** A child operation: its rows, how they would arrive lazily, and what it supports. */
  datatype Child = Child(width: nat, blocks: seq<seq<Row>>, supportsLimit: bool, supportsLaziness: bool, knownEmpty: bool) {
    function Rows(): seq<Row> {
      Concat(blocks)
    }

    ghost predicate Valid() {
      && AllWide(blocks, width)
      && (knownEmpty ==> Rows() == [])
    }
  }

  function ChildRows(children: seq<Child>): (ts: seq<seq<Row>>)
    ensures |ts| == |children|
  {
    seq(|children|, k requires 0 <= k < |children| => children[k].Rows())
  }

  function ToTable(width: nat, rows: seq<Row>): (t: Table)
    requires Wide(rows, width)
    ensures t.Valid() && t.numRows == |rows| && |t.columns| == width
  {
    Table(seq(width, c requires 0 <= c < width => seq(|rows|, i requires 0 <= i < |rows| => rows[i][c])), |rows|)
  }

  lemma ToTableRows(width: nat, rows: seq<Row>)
    requires Wide(rows, width)
    ensures ToTable(width, rows).Rows() == rows
  {
    forall i | 0 <= i < |rows|
      ensures ToTable(width, rows).RowAt(i) == rows[i]
    {}
  }

  lemma {:induction false} ConcatWidths(blocks: seq<seq<Row>>, width: nat)
    requires AllWide(blocks, width)
    ensures Wide(Concat(blocks), width)
  {
    if blocks != [] {
      ConcatWidths(blocks[1..], width);
    }
  }

  /** A child with a limit delivers a prefix of its rows. */
  function TakeBlocks(blocks: seq<seq<Row>>, limit: nat): seq<seq<Row>> {
    if blocks == [] then []
    else if limit <= |blocks[0]| then [blocks[0][..limit]]
    else [blocks[0]] + TakeBlocks(blocks[1..], limit - |blocks[0]|)
  }

  lemma {:induction false} TakeBlocksRows(blocks: seq<seq<Row>>, limit: nat)
    ensures Concat(TakeBlocks(blocks, limit)) == Slice(Concat(blocks), 0, limit)
  {
    if blocks != [] {
      if limit <= |blocks[0]| {
        assert [blocks[0][..limit]][1..] == [];
      } else {
        TakeBlocksRows(blocks[1..], limit - |blocks[0]|);
        assert ([blocks[0]] + TakeBlocks(blocks[1..], limit - |blocks[0]|))[1..]
            == TakeBlocks(blocks[1..], limit - |blocks[0]|);
      }
    }
  }

  lemma {:induction false} TakeBlocksWidths(blocks: seq<seq<Row>>, limit: nat, width: nat)
    requires AllWide(blocks, width)
    ensures AllWide(TakeBlocks(blocks, limit), width)
  {
    if blocks != [] && limit > |blocks[0]| {
      TakeBlocksWidths(blocks[1..], limit - |blocks[0]|, width);
    }
  }

  function ApplyLimit(child: Child, limit: Option<nat>): Child {
    if limit.Some? && child.supportsLimit then child.(blocks := TakeBlocks(child.blocks, limit.value)) else child
  }

  lemma ApplyLimitRows(child: Child, limit: Option<nat>)
    requires child.Valid()
    ensures ApplyLimit(child, limit).Valid()
    ensures ApplyLimit(child, limit).Rows()
         == if limit.Some? && child.supportsLimit then Slice(child.Rows(), 0, limit.value) else child.Rows()
  {
    if limit.Some? && child.supportsLimit {
      TakeBlocksRows(child.blocks, limit.value);
      TakeBlocksWidths(child.blocks, limit.value, child.width);
    }
  }

  // ---- Products that agree at the start ----------------------------------------------------------

  ghost predicate Agree(a: seq<Row>, b: seq<Row>, limit: nat) {
    Slice(a, 0, limit) == Slice(b, 0, limit)
  }

  lemma {:induction false} ProductAssociates(s: seq<seq<Row>>, rest: seq<seq<Row>>)
    ensures Product(s + rest) == Product(s + [Product(rest)])
  {
    if s == [] {
      assert s + rest == rest && s + [Product(rest)] == [Product(rest)];
      ProductOne(Product(rest));
    } else {
      assert (s + rest)[1..] == s[1..] + rest;
      assert (s + [Product(rest)])[1..] == s[1..] + [Product(rest)];
      ProductAssociates(s[1..], rest);
    }
  }

  lemma AgreeLast(s: seq<seq<Row>>, a: seq<Row>, b: seq<Row>, limit: nat)
    requires Agree(a, b, limit)
    ensures Agree(Product(s + [a]), Product(s + [b]), Volume(s) * limit)
  {
    if |a| < limit {
      assert Slice(a, 0, limit) == a;
      assert Slice(b, 0, limit) == b;
    } else {
      var p := a[..limit];
      assert a == p + a[limit..] && b == p + b[limit..];
      ProductLastAppend(s, p, a[limit..]);
      ProductLastAppend(s, p, b[limit..]);
      ProductSize(s + [p]);
      VolumeSnoc(s, p);
    }
  }

  lemma AgreeLess(a: seq<Row>, b: seq<Row>, limit: nat, less: nat)
    requires Agree(a, b, limit) && less <= limit
    ensures Agree(a, b, less)
  {
    assert Slice(a, 0, less) == Slice(Slice(a, 0, limit), 0, less);
    assert Slice(b, 0, less) == Slice(Slice(b, 0, limit), 0, less);
  }

  lemma AgreeSpread(t: seq<Row>, q: seq<Row>, limit: nat)
    ensures Agree(Spread(Slice(t, 0, limit), q), Spread(t, q), limit)
  {
    if limit < |t| && q != [] {
      var t' := t[..limit];
      assert Slice(t, 0, limit) == t';
      assert Extend(t', q[0]) == Extend(t, q[0])[..limit];
    } else if limit >= |t| {
      assert Slice(t, 0, limit) == t;
    }
  }

  /** How many rows the next child has to deliver after a child with `size` rows. Integer division
      rounds down, hence the additional row. */
  function NextLimit(limit: Option<nat>, size: nat): Option<nat>
    requires size > 0
  {
    match limit
    case Some(l) => DivModDef(l, size); Some(l / size + 1)
    case None => None
  }

  /** The running limit stays large enough when it is divided by the size of a child's result. */
  lemma RunningLimit(need: nat, g: nat, l: nat, m: nat)
    requires need <= g * l && m > 0
    ensures need <= (g * m) * (l / m + 1)
  {
    DivModDef(l, m);
    Distribute(l / m, 1, m);
    MulMonotone(l, (l / m + 1) * m, g);
    Associate(g, m, l / m + 1);
  }

  /** What is still missing, if the rest of the children delivered all their rows, would complete
      `s` to a product that agrees with the full one. */
  ghost predicate OnTrack(s: seq<seq<Row>>, rest: seq<seq<Row>>, full: seq<seq<Row>>, running: Option<nat>, need: nat) {
    && Agree(Product(s + [Product(rest)]), Product(full), need)
    && (running.Some? ==> need <= Volume(s) * running.value)
    && (running.None? ==> Product(s + [Product(rest)]) == Product(full))
  }

  /** Replacing the next child's rows by what it delivers under the running limit. */
  lemma NextChild(s: seq<seq<Row>>, rest: seq<seq<Row>>, full: seq<seq<Row>>, running: Option<nat>, need: nat, t: seq<Row>)
    requires rest != [] && OnTrack(s, rest, full, running, need)
    requires t == rest[0] || (running.Some? && t == Slice(rest[0], 0, running.value))
    ensures OnTrack(s, [t] + rest[1..], full, running, need)
  {
    var q := Product(rest[1..]);
    assert ([t] + rest[1..])[1..] == rest[1..];
    var a, b := Product([t] + rest[1..]), Product(rest);
    if t == rest[0] {
      assert a == b;
    } else {
      AgreeSpread(rest[0], q, running.value);
      AgreeLast(s, a, b, running.value);
      AgreeLess(Product(s + [a]), Product(s + [b]), Volume(s) * running.value, need);
    }
  }

  lemma TakeChild(s: seq<seq<Row>>, t: seq<Row>, rest: seq<seq<Row>>, full: seq<seq<Row>>, running: Option<nat>, need: nat)
    requires OnTrack(s, [t] + rest, full, running, need) && t != []
    ensures OnTrack(s + [t], rest, full, NextLimit(running, |t|), need)
  {
    ProductAssociates(s, [t] + rest);
    ProductAssociates(s + [t], rest);
    assert s + ([t] + rest) == (s + [t]) + rest;
    VolumeSnoc(s, t);
    if running.Some? {
      RunningLimit(need, Volume(s), running.value, |t|);
    }
  }

  lemma SkipNeutral(s: seq<seq<Row>>, rest: seq<seq<Row>>, full: seq<seq<Row>>, running: Option<nat>, need: nat)
    requires OnTrack(s, [[[]]] + rest, full, running, need)
    ensures OnTrack(s, rest, full, running, need)
  {
    assert ([[[]]] + rest)[1..] == rest;
    SpreadNeutral(Product(rest));
  }

  lemma {:induction false} SpreadNeutral(q: seq<Row>)
    ensures Spread([[]], q) == q
  {
    if q != [] {
      SpreadNeutral(q[1..]);
      assert Extend([[]], q[0]) == [q[0]] by {
        assert [] + q[0] == q[0];
      }
    }
  }

  lemma Finished(s: seq<seq<Row>>)
    ensures Product(s + [Product([])]) == Product(s)
  {
    ProductAssociates(s, []);
    assert s + [] == s;
  }

  // ---- The operation --------------------------------------------------------------------------

  /** The rows of the last child when it is consumed lazily, as one more factor. */
  ghost function Factors(subResults: seq<Table>, lazyResult: Option<seq<Table>>): seq<seq<Row>>
    requires AllValid(subResults) && (lazyResult.Some? ==> AllValid(lazyResult.value))
  {
    RowLists(subResults) + if lazyResult.Some? then [AllRows(lazyResult.value)] else []
  }

  method LazyTables(child: Child) returns (tables: seq<Table>)
    requires child.Valid()
    ensures AllValid(tables) && AllRows(tables) == child.Rows()
  {
    tables := [];
    for b := 0 to |child.blocks|
      invariant AllValid(tables) && AllRows(tables) == Concat(child.blocks[..b])
    {
      var block := ToTable(child.width, child.blocks[b]);
      ToTableRows(child.width, child.blocks[b]);
      AllRowsSnoc(tables, block);
      assert child.blocks[..b + 1] == child.blocks[..b] + [child.blocks[b]];
      ConcatSnoc(child.blocks[..b], child.blocks[b]);
      tables := tables + [block];
    }
    assert child.blocks[..|child.blocks|] == child.blocks;
  }

  method MaterializedTable(child: Child) returns (table: Table)
    requires child.Valid()
    ensures table.Valid() && table.Rows() == child.Rows() && |table.columns| == child.width
  {
    ConcatWidths(child.blocks, child.width);
    table := ToTable(child.width, child.Rows());
    ToTableRows(child.width, child.Rows());
  }

  lemma RowListsSnoc(tables: seq<Table>, table: Table)
    requires AllValid(tables) && table.Valid()
    ensures RowLists(tables + [table]) == RowLists(tables) + [table.Rows()]
  {}

  /** The rows of the factors agree with the full product where the query looks. */
  ghost predicate Delivers(factors: seq<seq<Row>>, full: seq<seq<Row>>, offset: nat, need: nat) {
    Slice(Product(factors), offset, need) == Slice(Product(full), offset, need)
  }

  /** Evaluates the children under the running limit. */
  method CalculateSubResults(children: seq<Child>, offset: nat, limit: Option<nat>, requestLaziness: bool)
    returns (subResults: seq<Table>, lazyResult: Option<seq<Table>>)
    requires children != [] && forall c | c in children :: c.Valid()
    ensures AllValid(subResults) && (lazyResult.Some? ==> requestLaziness && AllValid(lazyResult.value))
    ensures lazyResult.Some? ==> forall t | t in subResults :: t.numRows > 0
    ensures Delivers(Factors(subResults, lazyResult), ChildRows(children), offset, LimitOrDefault(limit))
  {
    ghost var full, need := ChildRows(children), LimitOrDefault(limit);
    var limitIfPresent: Option<nat> := if offset == 0 then limit else None;
    subResults, lazyResult := [], None;
    StartsOnTrack(full, limitIfPresent, need);
    for k := 0 to |children|
      invariant lazyResult.None? && AllValid(subResults)
      invariant forall t | t in subResults :: t.numRows > 0
      invariant limitIfPresent.Some? ==> offset == 0
      invariant OnTrack(RowLists(subResults), full[k..], full, limitIfPresent, need)
    {
      ghost var s := RowLists(subResults);
      var child := ApplyLimit(children[k], limitIfPresent);
      ApplyLimitRows(children[k], limitIfPresent);
      NextChild(s, full[k..], full, limitIfPresent, need, child.Rows());
      assert full[k..][1..] == full[k + 1..];
      if requestLaziness && k == |children| - 1 && child.supportsLaziness {
        var tables := LazyTables(child);
        lazyResult := Some(tables);
        LastChildLazy(s, child.Rows(), full, limitIfPresent, need, offset);
        return;
      }
      var table := MaterializedTable(child);
      RowListsSnoc(subResults, table);
      if table.numRows == 0 {
        EmptyChild(s, full[k + 1..], full, limitIfPresent, need, offset);
        subResults := subResults + [table];
        assert Factors(subResults, lazyResult) == RowLists(subResults);
        return;
      }
      if table.numRows == 1 && |table.columns| == 0 {
        assert table.Rows() == [[]];
        SkipNeutral(s, full[k + 1..], full, limitIfPresent, need);
        continue;
      }
      TakeChild(s, child.Rows(), full[k + 1..], full, limitIfPresent, need);
      limitIfPresent := NextLimit(limitIfPresent, table.numRows);
      subResults := subResults + [table];
    }
    AllChildren(RowLists(subResults), full, limitIfPresent, need, offset);
    assert Factors(subResults, lazyResult) == RowLists(subResults);
  }

  lemma LastChildLazy(s: seq<seq<Row>>, t: seq<Row>, full: seq<seq<Row>>, running: Option<nat>, need: nat, offset: nat)
    requires OnTrack(s, [t] + [], full, running, need) && (running.Some? ==> offset == 0)
    ensures Delivers(s + [t], full, offset, need)
  {
    ProductOne(t);
    assert [t] + [] == [t];
  }

  lemma EmptyChild(s: seq<seq<Row>>, rest: seq<seq<Row>>, full: seq<seq<Row>>, running: Option<nat>, need: nat, offset: nat)
    requires OnTrack(s, [[]] + rest, full, running, need) && (running.Some? ==> offset == 0)
    ensures Delivers(s + [[]], full, offset, need)
  {
    ProductLastEmpty(s);
    ProductWithEmpty([[]] + rest, 0);
  }

  lemma AllChildren(s: seq<seq<Row>>, full: seq<seq<Row>>, running: Option<nat>, need: nat, offset: nat)
    requires OnTrack(s, [], full, running, need) && (running.Some? ==> offset == 0)
    ensures Delivers(s, full, offset, need)
  {
    Finished(s);
  }

  lemma StartsOnTrack(full: seq<seq<Row>>, running: Option<nat>, need: nat)
    requires running.Some? ==> running.value == need
    ensures OnTrack([], full[0..], full, running, need)
  {
    ProductOne(Product(full));
    assert full[0..] == full;
    assert [] + [Product(full)] == [Product(full)];
  }

  lemma WithoutLimit(rows: seq<Row>, offset: nat)
    ensures |rows| <= offset + 0xFFFF_FFFF_FFFF_FFFF
            ==> Slice(rows, offset, LimitOrDefault(None)) == rows[Min(offset, |rows|)..]
    ensures rows == [] ==> forall limit: nat :: Slice(rows, offset, limit) == []
  {}

  /** In every mode, the tables produced are the requested part of the product of all children. */
  method ComputeResult(children: seq<Child>, offset: nat, limit: Option<nat>, requestLaziness: bool, chunkSize: nat)
    returns (tables: seq<Table>)
    requires children != [] && (forall c | c in children :: c.Valid()) && chunkSize > 0
    ensures AllValid(tables)
    ensures AllRows(tables) == Slice(Product(ChildRows(children)), offset, LimitOrDefault(limit))
    ensures limit.Some? ==> AllRows(tables) == Slice(Product(ChildRows(children)), offset, limit.value)
    ensures limit.None? && |Product(ChildRows(children))| <= offset + 0xFFFF_FFFF_FFFF_FFFF
            ==> AllRows(tables) == Product(ChildRows(children))[Min(offset, |Product(ChildRows(children))|)..]
  {
    WithoutLimit(Product(ChildRows(children)), offset);
    assert AllRows([]) == [];
    hide Slice, Product, AllRows, ChildRows, LimitOrDefault;
    for k := 0 to |children| {
      if children[k].knownEmpty {
        assert children[k].Valid();
        ProductWithEmpty(ChildRows(children), k);
        return [];
      }
    }
    var subResults, lazyResult := CalculateSubResults(children, offset, limit, requestLaziness);
    ghost var ts := RowLists(subResults);
    if !requestLaziness {
      assert ts + [] == ts;
      SkippedNothing(subResults);
      var table := WriteAllColumns(subResults, offset, LimitOrDefault(limit), 0, offset);
      AllRowsSnoc([], table);
      assert [] + [table] == [table];
      tables := [table];
    } else if lazyResult.Some? {
      tables := CreateLazyConsumer(subResults, lazyResult.value, offset, LimitOrDefault(limit), chunkSize);
    } else {
      assert ts + [] == ts;
      SkippedNothing(subResults);
      tables := ProduceTablesLazily(subResults, offset, LimitOrDefault(limit), 0, chunkSize, offset, Product(ts));
    }
  }

  lemma SkippedNothing(tables: seq<Table>)
    ensures Skipped(tables, 0) == 0
  {}
}
