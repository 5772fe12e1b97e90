/**
 Blank nodes of CONSTRUCT results: which rows get ids of their own, and that a label determines the
 row id, the template label and the kind.
 */
module BlankNodeLabels {
  import opened Tables
  import opened ConstructTypes
  import opened ConstructTripleGenerator

  // ---- Row ids ------------------------------------------------------------------------------------------

  /** Row `r` of table `k` is one of the rows in its view. */
  ghost predicate InView(tables: seq<TableWithRange>, k: nat, r: nat) {
    k < |tables| && tables[k].begin <= r < tables[k].end
  }

  ghost function RowId(tables: seq<TableWithRange>, rowOffset: nat, k: nat, r: nat): nat
    requires AllViewsValid(tables) && InView(tables, k, r)
  {
    rowOffset + ViewRows(tables[..k]) + r
  }

  ghost predicate RowIdsDistinct(tables: seq<TableWithRange>, rowOffset: nat)
    requires AllViewsValid(tables)
  {
    forall j, q, k, r | InView(tables, j, q) && InView(tables, k, r) && RowId(tables, rowOffset, j, q) == RowId(tables, rowOffset, k, r) ::
      j == k && q == r
  }

  /** The views of a result from which an OFFSET has been skipped: none is empty, and all but the
      first start at row 0. */
  ghost predicate OffsetViews(tables: seq<TableWithRange>) {
    && AllViewsValid(tables)
    && (forall k | 0 <= k < |tables| :: tables[k].begin < tables[k].end)
    && (forall k | 1 <= k < |tables| :: tables[k].begin == 0)
  }

  lemma ViewRowsNext(tables: seq<TableWithRange>, k: nat)
    requires AllViewsValid(tables) && k < |tables|
    ensures ViewRows(tables[..k + 1]) == ViewRows(tables[..k]) + (tables[k].end - tables[k].begin)
  {
    assert tables[..k + 1][..k] == tables[..k];
  }

  lemma {:induction false} ViewRowsMonotone(tables: seq<TableWithRange>, j: nat, k: nat)
    requires AllViewsValid(tables) && j <= k <= |tables|
    ensures ViewRows(tables[..j]) <= ViewRows(tables[..k])
    decreases k
  {
    if j < k {
      ViewRowsNext(tables, k - 1);
      ViewRowsMonotone(tables, j, k - 1);
    }
  }

  /** The ids of all tables but the first follow one another without gaps. */
  lemma LaterIds(tables: seq<TableWithRange>, rowOffset: nat, k: nat, r: nat)
    requires OffsetViews(tables) && 1 <= k && InView(tables, k, r)
    ensures rowOffset + ViewRows(tables[..k]) <= RowId(tables, rowOffset, k, r) < rowOffset + ViewRows(tables[..k + 1])
    ensures rowOffset + (tables[0].end - tables[0].begin) <= RowId(tables, rowOffset, k, r) < rowOffset + ViewRows(tables)
  {
    ViewRowsNext(tables, k);
    ViewRowsMonotone(tables, k + 1, |tables|);
    ViewRowsMonotone(tables, 1, k);
    ViewRowsNext(tables, 0);
    assert tables[..|tables|] == tables && tables[..0] == [];
  }

  lemma FirstIds(tables: seq<TableWithRange>, rowOffset: nat, r: nat)
    requires OffsetViews(tables) && InView(tables, 0, r)
    ensures RowId(tables, rowOffset, 0, r) == rowOffset + r
  {
    assert tables[..0] == [];
  }

  lemma LaterIdsDistinct(tables: seq<TableWithRange>, rowOffset: nat, j: nat, q: nat, k: nat, r: nat)
    requires OffsetViews(tables) && 1 <= j <= k && InView(tables, j, q) && InView(tables, k, r)
    requires RowId(tables, rowOffset, j, q) == RowId(tables, rowOffset, k, r)
    ensures j == k && q == r
  {
    LaterIds(tables, rowOffset, j, q);
    LaterIds(tables, rowOffset, k, r);
    if j < k {
      ViewRowsMonotone(tables, j + 1, k);
    }
  }

  /** When the first view keeps its distance, no two rows share an id. */
  lemma DistinctIf(tables: seq<TableWithRange>, rowOffset: nat)
    requires OffsetViews(tables)
    requires |tables| <= 1 || tables[0].begin == 0 || ViewRows(tables) <= tables[0].begin
    ensures RowIdsDistinct(tables, rowOffset)
  {
    forall j, q, k, r | InView(tables, j, q) && InView(tables, k, r) && RowId(tables, rowOffset, j, q) == RowId(tables, rowOffset, k, r)
      ensures j == k && q == r
    {
      if 1 <= j <= k {
        LaterIdsDistinct(tables, rowOffset, j, q, k, r);
      } else if 1 <= k <= j {
        LaterIdsDistinct(tables, rowOffset, k, r, j, q);
      } else {
        FirstAgainst(tables, rowOffset, j, q);
        FirstAgainst(tables, rowOffset, k, r);
      }
    }
  }

  /** Where the ids of the first and of the later tables lie. */
  lemma FirstAgainst(tables: seq<TableWithRange>, rowOffset: nat, k: nat, r: nat)
    requires OffsetViews(tables) && InView(tables, k, r)
    ensures k == 0 ==> RowId(tables, rowOffset, k, r) == rowOffset + r
    ensures k > 0 ==> rowOffset + (tables[0].end - tables[0].begin) <= RowId(tables, rowOffset, k, r) < rowOffset + ViewRows(tables)
  {
    if k == 0 {
      FirstIds(tables, rowOffset, r);
    } else {
      LaterIds(tables, rowOffset, k, r);
    }
  }

  /** Some row of a later table has the given id, if the id lies in the range of the later tables. */
  lemma {:induction false} LaterIdReached(tables: seq<TableWithRange>, rowOffset: nat, n: nat, id: nat) returns (k: nat, r: nat)
    requires OffsetViews(tables) && 1 <= n <= |tables|
    requires rowOffset + (tables[0].end - tables[0].begin) <= id < rowOffset + ViewRows(tables[..n])
    ensures 1 <= k && InView(tables, k, r) && RowId(tables, rowOffset, k, r) == id
    decreases n
  {
    ViewRowsNext(tables, n - 1);
    assert tables[..0] == [];
    if id < rowOffset + ViewRows(tables[..n - 1]) {
      k, r := LaterIdReached(tables, rowOffset, n - 1, id);
    } else {
      k, r := n - 1, id - rowOffset - ViewRows(tables[..n - 1]);
    }
  }

  /** A first view that starts inside the range of all views shifts its ids into those of later rows. */
  lemma CollisionIf(tables: seq<TableWithRange>, rowOffset: nat)
    requires OffsetViews(tables) && |tables| > 1 && 0 < tables[0].begin < ViewRows(tables)
    ensures !RowIdsDistinct(tables, rowOffset)
  {
    var o, n := tables[0].begin, tables[0].end - tables[0].begin;
    ViewRowsNext(tables, 0);
    ViewRowsNext(tables, 1);
    ViewRowsMonotone(tables, 2, |tables|);
    assert tables[..|tables|] == tables && tables[..0] == [];
    var q := if o < n then n else o;
    FirstIds(tables, rowOffset, q);
    var k, r := LaterIdReached(tables, rowOffset, |tables|, rowOffset + q);
    assert InView(tables, 0, q) && InView(tables, k, r);
  }

  /** Exactly when rows have ids of their own. */
  lemma RowIdsDistinctIff(tables: seq<TableWithRange>, rowOffset: nat)
    requires OffsetViews(tables)
    ensures RowIdsDistinct(tables, rowOffset)
       <==> |tables| <= 1 || tables[0].begin == 0 || ViewRows(tables) <= tables[0].begin
  {
    if |tables| <= 1 || tables[0].begin == 0 || ViewRows(tables) <= tables[0].begin {
      DistinctIf(tables, rowOffset);
    } else {
      CollisionIf(tables, rowOffset);
    }
  }

  /** The smallest collision: the second row of a table, and the first row of the next one. */
  lemma CollisionExample(a: Row, b: Row)
    ensures var tables := [TableWithRange([a, b], 1, 2), TableWithRange([b], 0, 1)];
            && AllViewsValid(tables) && InView(tables, 0, 1) && InView(tables, 1, 0)
            && RowId(tables, 0, 0, 1) == RowId(tables, 0, 1, 0)
  {
    var tables := [TableWithRange([a, b], 1, 2), TableWithRange([b], 0, 1)];
    assert tables[..0] == [];
    ViewRowsNext(tables, 0);
  }

  // ---- Labels -------------------------------------------------------------------------------------------

  ghost predicate IsDigit(c: char) {
    '0' <= c <= '9'
  }

  lemma DigitFacts(d: nat, e: nat)
    requires d < 10 && e < 10
    ensures IsDigit(Digit(d)) && Digit(d) != '_'
    ensures Digit(d) == Digit(e) ==> d == e
  {}

  lemma {:induction false} DecimalDigits(n: nat)
    ensures forall i | 0 <= i < |Decimal(n)| :: IsDigit(Decimal(n)[i])
  {
    if n < 10 {
      DigitFacts(n, n);
    } else {
      DigitFacts(n % 10, n % 10);
      DecimalDigits(n / 10);
    }
  }

  lemma {:induction false} DecimalInjective(m: nat, n: nat)
    requires Decimal(m) == Decimal(n)
    ensures m == n
    decreases m
  {
    var s := Decimal(m);
    DigitFacts(m % 10, n % 10);
    LastDigit(m);
    LastDigit(n);
    if m >= 10 && n >= 10 {
      assert s[..|s| - 1] == Decimal(m / 10) == Decimal(n / 10);
      DecimalInjective(m / 10, n / 10);
    }
  }

  lemma LastDigit(n: nat)
    ensures Decimal(n)[|Decimal(n)| - 1] == Digit(n % 10)
    ensures n < 10 <==> |Decimal(n)| == 1
  {}

  /** Text without an underscore, followed by one, can be read off in only one way. */
  lemma {:induction false} BeforeUnderscore(s: string, t: string, x: string, y: string)
    requires s + "_" + x == t + "_" + y
    requires forall i | 0 <= i < |s| :: s[i] != '_'
    requires forall i | 0 <= i < |t| :: t[i] != '_'
    ensures s == t && x == y
  {
    var u, v := s + "_" + x, t + "_" + y;
    assert u[0] == if s == [] then '_' else s[0];
    assert v[0] == if t == [] then '_' else t[0];
    if s != [] && t != [] {
      assert u[1..] == s[1..] + "_" + x && v[1..] == t[1..] + "_" + y;
      BeforeUnderscore(s[1..], t[1..], x, y);
    } else {
      assert u[1..] == x && v[1..] == y;
    }
  }

  ghost function BlankNodeText(isGenerated: bool, rowId: nat, nodeLabel: string): string {
    BlankNodePrefix(isGenerated) + Decimal(rowId) + "_" + nodeLabel
  }

  /** The text of a blank node determines its kind, its row and its label in the template. */
  lemma BlankNodeTextInjective(g: bool, m: nat, x: string, h: bool, n: nat, y: string)
    requires BlankNodeText(g, m, x) == BlankNodeText(h, n, y)
    ensures g == h && m == n && x == y
  {
    var u, v := BlankNodeText(g, m, x), BlankNodeText(h, n, y);
    assert u[2] == if g then 'g' else 'u';
    assert v[2] == if h then 'g' else 'u';
    assert u[3..] == Decimal(m) + "_" + x && v[3..] == Decimal(n) + "_" + y;
    DecimalDigits(m);
    DecimalDigits(n);
    BeforeUnderscore(Decimal(m), Decimal(n), x, y);
    DecimalInjective(m, n);
  }

  /** Where row ids are distinct, two blank nodes of the result are equal only if they come from the
      same row, the same label and the same kind. */
  lemma BlankNodesDistinct(tables: seq<TableWithRange>, rowOffset: nat, columns: VariableToColumnMap, resolve: Resolver,
                           j: nat, q: nat, g: bool, x: string, k: nat, r: nat, h: bool, y: string, position: nat, position': nat)
    requires AllViewsValid(tables) && RowIdsDistinct(tables, rowOffset) && InView(tables, j, q) && InView(tables, k, r)
    requires TermFor(BlankNode(g, x), position, columns, resolve, tables[j].rows[q], RowId(tables, rowOffset, j, q))
          == TermFor(BlankNode(h, y), position', columns, resolve, tables[k].rows[r], RowId(tables, rowOffset, k, r))
    ensures j == k && q == r && g == h && x == y
  {
    BlankNodeTextInjective(g, RowId(tables, rowOffset, j, q), x, h, RowId(tables, rowOffset, k, r), y);
  }
}
