/**
 Shared vocabulary: ids, rows, column-based tables, and sequences cut into blocks.
 */
module Tables {

  /** Ids are totally ordered, and the undefined value is the smallest one. */
  type Id = nat

  const UNDEF: Id := 0

  type Row = seq<Id>

  datatype Triple = Triple(s: Id, p: Id, o: Id)

  /** A triple in the graph `g`. */
  datatype Quad = Quad(s: Id, p: Id, o: Id, g: Id)

  datatype Option<+T> = None | Some(value: T)

  function Min(a: int, b: int): int {
    if a <= b then a else b
  }

  // ---- Blocks ---------------------------------------------------------------------------------

  function Concat<T>(blocks: seq<seq<T>>): seq<T> {
    if blocks == [] then [] else blocks[0] + Concat(blocks[1..])
  }

  lemma {:induction false} ConcatAppend<T>(a: seq<seq<T>>, b: seq<seq<T>>)
    ensures Concat(a + b) == Concat(a) + Concat(b)
  {
    if a == [] {
      assert a + b == b;
    } else {
      assert (a + b)[1..] == a[1..] + b;
      ConcatAppend(a[1..], b);
    }
  }

  lemma ConcatSnoc<T>(a: seq<seq<T>>, x: seq<T>)
    ensures Concat(a + [x]) == Concat(a) + x
  {
    ConcatAppend(a, [x]);
    assert Concat([x]) == x + Concat([][..]);
  }

  /** The rows an OFFSET and a LIMIT leave. */
  function Slice<T>(s: seq<T>, offset: nat, limit: nat): seq<T> {
    var from := Min(offset, |s|);
    s[from..from + Min(limit, |s| - from)]
  }

  // ---- Tables ---------------------------------------------------------------------------------

  /** A column-based table. The number of rows is stored on its own, because a table may have rows
      but no columns. */
  datatype Table = Table(columns: seq<seq<Id>>, numRows: nat) {
    ghost predicate Valid() {
      forall c | 0 <= c < |columns| :: |columns[c]| == numRows
    }

    function RowAt(n: nat): (r: Row)
      requires Valid() && n < numRows
      ensures |r| == |columns|
    {
      seq(|columns|, c requires 0 <= c < |columns| => columns[c][n])
    }

    function Rows(): (rs: seq<Row>)
      requires Valid()
      ensures |rs| == numRows
      ensures forall n | 0 <= n < numRows :: rs[n] == RowAt(n)
    {
      seq(numRows, n requires 0 <= n < numRows => RowAt(n))
    }
  }

  /** The rows of several tables, one table after the other. */
  ghost function AllRows(tables: seq<Table>): seq<Row>
    requires forall t | t in tables :: t.Valid()
  {
    if tables == [] then [] else tables[0].Rows() + AllRows(tables[1..])
  }

  lemma {:induction false} AllRowsAppend(a: seq<Table>, b: seq<Table>)
    requires forall t | t in a :: t.Valid()
    requires forall t | t in b :: t.Valid()
    ensures AllRows(a + b) == AllRows(a) + AllRows(b)
  {
    if a == [] {
      assert a + b == b;
    } else {
      assert (a + b)[1..] == a[1..] + b;
      AllRowsAppend(a[1..], b);
    }
  }
}
