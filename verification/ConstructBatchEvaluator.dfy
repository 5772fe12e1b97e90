/**
 Column-wise evaluation of a batch of rows: ids are sorted, looked up in a cache, resolved once
 each where the cache has no entry, and scattered back to their rows.
 */
module ConstructBatchEvaluator {
  import opened Tables
  import opened ConstructTypes

  // ---- The cache --------------------------------------------------------------------------------------

  /** A cache from ids to terms. It may drop any entries whenever it stores one. */
  class IdCache {
    var entries: map<Id, Option<EvaluatedTerm>>

    constructor ()
      ensures entries == map[]
    {
      entries := map[];
    }

    ghost predicate Correct(resolve: Resolver)
      reads this
    {
      forall id | id in entries :: entries[id] == resolve(id)
    }

    /** All entries are what the cache held before or what `resolve` says of the given ids. */
    twostate predicate FilledFrom(resolve: Resolver, ids: seq<Id>)
      reads this
    {
      forall id | id in entries :: (id in old(entries) || id in ids) && entries[id] == Effective(old(entries), resolve)(id)
    }

    method TryGet(id: Id) returns (cached: Option<Option<EvaluatedTerm>>)
      ensures cached == if id in entries then Some(entries[id]) else None
    {
      cached := if id in entries then Some(entries[id]) else None;
    }

    method GetOrCompute(id: Id, computed: Option<EvaluatedTerm>) returns (value: Option<EvaluatedTerm>)
      modifies this
      ensures value == if id in old(entries) then old(entries)[id] else computed
      ensures forall k | k in entries ::
        (k in old(entries) && entries[k] == old(entries)[k]) || (k == id && entries[k] == value)
    {
      if id in entries {
        return entries[id];
      }
      value := computed;
      assert {} <= entries.Keys;
      var kept: set<Id> :| kept <= entries.Keys;
      entries := (map k | k in kept :: entries[k])[id := value];
    }
  }

  /** Entries take precedence over resolving the id. */
  ghost function Effective(entries: map<Id, Option<EvaluatedTerm>>, resolve: Resolver): Resolver {
    (id: Id) => if id in entries then entries[id] else resolve(id)
  }

  // ---- Sorting by id ------------------------------------------------------------------------------------

  datatype RowAndId = RowAndId(row: nat, id: Id)

  function Insert(x: RowAndId, s: seq<RowAndId>): seq<RowAndId> {
    if s == [] || x.id <= s[0].id then [x] + s else [s[0]] + Insert(x, s[1..])
  }

  function SortById(s: seq<RowAndId>): seq<RowAndId> {
    if s == [] then [] else Insert(s[0], SortById(s[1..]))
  }

  function Enumerate(column: seq<Id>): seq<RowAndId> {
    seq(|column|, i requires 0 <= i < |column| => RowAndId(i, column[i]))
  }

  ghost predicate SortedById(s: seq<RowAndId>) {
    forall i, j | 0 <= i < j < |s| :: s[i].id <= s[j].id
  }

  lemma {:induction false} InsertSorts(x: RowAndId, s: seq<RowAndId>)
    requires SortedById(s)
    ensures SortedById(Insert(x, s))
    ensures forall y :: y in Insert(x, s) <==> y == x || y in s
  {
    if s != [] && x.id > s[0].id {
      InsertSorts(x, s[1..]);
      var t := Insert(x, s[1..]);
      forall k | 0 <= k < |t|
        ensures s[0].id <= t[k].id
      {
        assert t[k] in t;
      }
      assert forall y :: y in s <==> y == s[0] || y in s[1..];
    }
  }

  lemma {:induction false} SortByIdSorts(s: seq<RowAndId>)
    ensures SortedById(SortById(s))
    ensures forall y :: y in SortById(s) <==> y in s
  {
    if s != [] {
      SortByIdSorts(s[1..]);
      InsertSorts(s[0], SortById(s[1..]));
      assert forall y :: y in s <==> y == s[0] || y in s[1..];
    }
  }

  // ---- One column ---------------------------------------------------------------------------------------

  ghost predicate StrictlyIncreasing(ids: seq<Id>) {
    forall i, j | 0 <= i < j < |ids| :: ids[i] < ids[j]
  }

  /** The rows recorded for each miss hold the id that was missed. */
  ghost predicate MissesFit(missIds: seq<Id>, missRows: seq<seq<nat>>, column: seq<Id>) {
    && |missIds| == |missRows|
    && forall m, k | 0 <= m < |missRows| && 0 <= k < |missRows[m]| ::
      missRows[m][k] < |column| && column[missRows[m][k]] == missIds[m]
  }

  ghost predicate Scheduled(missRows: seq<seq<nat>>, row: nat) {
    exists m, k :: 0 <= m < |missRows| && 0 <= k < |missRows[m]| && missRows[m][k] == row
  }

  /** The rows that have been filled from the cache hold the right term; the others are scheduled. */
  ghost predicate FilledOrScheduled(result: seq<Option<EvaluatedTerm>>, column: seq<Id>, missRows: seq<seq<nat>>,
                                    seen: seq<RowAndId>, resolve: Resolver)
  {
    && |result| == |column|
    && forall x | x in seen :: x.row < |column| && (result[x.row] == resolve(x.id) || Scheduled(missRows, x.row))
  }

  /** Splits the ids into those found in the cache, whose rows are filled, and those missed. */
  method LookUp(sortedIndices: seq<RowAndId>, column: seq<Id>, idCache: IdCache, ghost resolve: Resolver)
    returns (result: seq<Option<EvaluatedTerm>>, missIds: seq<Id>, missRows: seq<seq<nat>>)
    requires SortedById(sortedIndices) && idCache.Correct(resolve)
    requires forall x | x in sortedIndices :: x.row < |column| && column[x.row] == x.id
    ensures FilledOrScheduled(result, column, missRows, sortedIndices, resolve)
    ensures MissesFit(missIds, missRows, column) && StrictlyIncreasing(missIds)
    ensures forall id | id in missIds :: id in column && id !in idCache.entries
  {
    result := seq(|column|, i => None);
    missIds, missRows := [], [];
    assert MissesFit([], [], column) && FilledOrScheduled(result, column, [], sortedIndices[..0], resolve);
    assert |result| == |column|;
    hide Scheduled, FilledOrScheduled, MissesFit, StrictlyIncreasing;
    for i := 0 to |sortedIndices|
      invariant |result| == |column| && MissesFit(missIds, missRows, column) && StrictlyIncreasing(missIds)
      invariant FilledOrScheduled(result, column, missRows, sortedIndices[..i], resolve)
      invariant forall id | id in missIds :: id in column && id !in idCache.entries
      invariant missIds != [] ==> i > 0 && missIds[|missIds| - 1] <= sortedIndices[i - 1].id
    {
      var x := sortedIndices[i];
      assert x in sortedIndices;
      assert sortedIndices[..i + 1] == sortedIndices[..i] + [x];
      var cached := idCache.TryGet(x.id);
      if cached.Some? {
        Hit(result, column, missRows, sortedIndices[..i], x, resolve);
        result := result[x.row := cached.value];
      } else if missIds != [] && missIds[|missIds| - 1] == x.id {
        SameMiss(result, missIds, missRows, column, sortedIndices[..i], x, resolve);
        missRows := missRows[|missRows| - 1 := missRows[|missRows| - 1] + [x.row]];
      } else {
        NewMiss(result, missIds, missRows, column, sortedIndices[..i], x, resolve);
        missIds := missIds + [x.id];
        missRows := missRows + [[x.row]];
      }
    }
    assert sortedIndices[..|sortedIndices|] == sortedIndices;
  }

  lemma SameMiss(result: seq<Option<EvaluatedTerm>>, missIds: seq<Id>, missRows: seq<seq<nat>>, column: seq<Id>,
                 seen: seq<RowAndId>, x: RowAndId, resolve: Resolver)
    requires MissesFit(missIds, missRows, column) && x.row < |column| && column[x.row] == x.id
    requires missIds != [] && missIds[|missIds| - 1] == x.id
    requires FilledOrScheduled(result, column, missRows, seen, resolve)
    ensures |missRows| == |missIds|
    ensures var missRows' := missRows[|missRows| - 1 := missRows[|missRows| - 1] + [x.row]];
            && MissesFit(missIds, missRows', column)
            && FilledOrScheduled(result, column, missRows', seen + [x], resolve)
  {
    hide Scheduled, FilledOrScheduled;
    var missRows' := missRows[|missRows| - 1 := missRows[|missRows| - 1] + [x.row]];
    KeepsScheduled(missRows, missRows', |missRows| - 1, x.row);
    Missed(result, column, missRows, missRows', seen, x, resolve);
  }

  lemma NewMiss(result: seq<Option<EvaluatedTerm>>, missIds: seq<Id>, missRows: seq<seq<nat>>, column: seq<Id>,
                seen: seq<RowAndId>, x: RowAndId, resolve: Resolver)
    requires MissesFit(missIds, missRows, column) && x.row < |column| && column[x.row] == x.id
    requires StrictlyIncreasing(missIds) && (missIds == [] || missIds[|missIds| - 1] < x.id)
    requires FilledOrScheduled(result, column, missRows, seen, resolve)
    ensures MissesFit(missIds + [x.id], missRows + [[x.row]], column)
    ensures StrictlyIncreasing(missIds + [x.id])
    ensures FilledOrScheduled(result, column, missRows + [[x.row]], seen + [x], resolve)
  {
    hide Scheduled, FilledOrScheduled;
    AddsScheduled(missRows, missRows + [[x.row]], x.row);
    Missed(result, column, missRows, missRows + [[x.row]], seen, x, resolve);
  }

  lemma Hit(result: seq<Option<EvaluatedTerm>>, column: seq<Id>, missRows: seq<seq<nat>>, seen: seq<RowAndId>,
            x: RowAndId, resolve: Resolver)
    requires FilledOrScheduled(result, column, missRows, seen, resolve)
    requires forall y | y in seen + [x] :: y.row < |column| && column[y.row] == y.id
    ensures x.row < |result|
    ensures FilledOrScheduled(result[x.row := resolve(x.id)], column, missRows, seen + [x], resolve)
  {
    hide Scheduled;
    assert x in seen + [x];
    forall y | y in seen
      ensures column[y.row] == y.id
    {
      assert y in seen + [x];
    }
  }

  lemma Missed(result: seq<Option<EvaluatedTerm>>, column: seq<Id>, missRows: seq<seq<nat>>, missRows': seq<seq<nat>>,
               seen: seq<RowAndId>, x: RowAndId, resolve: Resolver)
    requires FilledOrScheduled(result, column, missRows, seen, resolve) && x.row < |column|
    requires Scheduled(missRows', x.row) && forall r: nat | Scheduled(missRows, r) :: Scheduled(missRows', r)
    ensures FilledOrScheduled(result, column, missRows', seen + [x], resolve)
  {
    hide Scheduled;
  }

  lemma KeepsScheduled(before: seq<seq<nat>>, after: seq<seq<nat>>, m: nat, row: nat)
    requires m < |before| && after == before[m := before[m] + [row]]
    ensures Scheduled(after, row)
    ensures forall r: nat | Scheduled(before, r) :: Scheduled(after, r)
  {
    assert after[m][|before[m]|] == row;
    forall r: nat | Scheduled(before, r)
      ensures Scheduled(after, r)
    {
      var i, k :| 0 <= i < |before| && 0 <= k < |before[i]| && before[i][k] == r;
      assert after[i][k] == r;
    }
  }

  lemma AddsScheduled(before: seq<seq<nat>>, after: seq<seq<nat>>, row: nat)
    requires after == before + [[row]]
    ensures Scheduled(after, row)
    ensures forall r: nat | Scheduled(before, r) :: Scheduled(after, r)
  {
    assert after[|before|][0] == row;
    forall r: nat | Scheduled(before, r)
      ensures Scheduled(after, r)
    {
      var i, k :| 0 <= i < |before| && 0 <= k < |before[i]| && before[i][k] == r;
      assert after[i][k] == r;
    }
  }

  /** Writes the term to the rows given. */
  method Scatter(before: seq<Option<EvaluatedTerm>>, rows: seq<nat>, evaluated: Option<EvaluatedTerm>)
    returns (result: seq<Option<EvaluatedTerm>>)
    requires forall k | 0 <= k < |rows| :: rows[k] < |before|
    ensures |result| == |before|
    ensures forall r | 0 <= r < |before| :: result[r] == if r in rows then evaluated else before[r]
  {
    result := before;
    for k := 0 to |rows|
      invariant |result| == |before|
      invariant forall r | 0 <= r < |before| :: result[r] == if r in rows[..k] then evaluated else before[r]
    {
      assert rows[..k + 1] == rows[..k] + [rows[k]];
      result := result[rows[k] := evaluated];
    }
    assert rows[..|rows|] == rows;
  }

  /** The terms written are right, so rows that hold the right term keep it. */
  lemma ScatterKeeps(before: seq<Option<EvaluatedTerm>>, after: seq<Option<EvaluatedTerm>>, column: seq<Id>,
                     missIds: seq<Id>, missRows: seq<seq<nat>>, m: nat, term: Resolver)
    requires MissesFit(missIds, missRows, column) && m < |missIds| && |before| == |after| == |column|
    requires forall r | 0 <= r < |before| :: after[r] == if r in missRows[m] then term(missIds[m]) else before[r]
    ensures forall r | 0 <= r < |column| :: after[r] == before[r] || after[r] == term(column[r])
    ensures forall r | r in missRows[m] :: r < |column| && after[r] == term(column[r])
  {}

  /** The terms for one column: each row gets the entry that the cache had for its id, or else the term that the
      id is resolved to. The ids resolved are strictly increasing. */
  method EvaluateVariableByColumn(column: seq<Id>, idCache: IdCache, resolve: Resolver)
    returns (result: seq<Option<EvaluatedTerm>>, ghost lookedUp: seq<Id>)
    modifies idCache
    ensures idCache.FilledFrom(resolve, column)
    ensures |result| == |column|
    ensures forall r | 0 <= r < |column| :: result[r] == Effective(old(idCache.entries), resolve)(column[r])
    ensures StrictlyIncreasing(lookedUp) && forall id | id in lookedUp :: id in column && id !in old(idCache.entries)
  {
    ghost var term := Effective(idCache.entries, resolve);
    var sortedIndices := SortById(Enumerate(column));
    SortByIdSorts(Enumerate(column));
    var missIds, missRows;
    result, missIds, missRows := LookUp(sortedIndices, column, idCache, term);
    lookedUp := missIds;
    var missResolved := seq(|missIds|, i requires 0 <= i < |missIds| => resolve(missIds[i]));
    ghost var filled := result;
    for m := 0 to |missIds|
      invariant idCache.FilledFrom(resolve, column) && |result| == |column|
      invariant forall i | m <= i < |missIds| :: missIds[i] !in idCache.entries
      invariant forall r | 0 <= r < |column| :: result[r] == filled[r] || result[r] == term(column[r])
      invariant forall i, r | 0 <= i < m && r in missRows[i] :: r < |column| && result[r] == term(column[r])
    {
      assert missIds[m] in missIds;
      var evaluated := idCache.GetOrCompute(missIds[m], missResolved[m]);
      ghost var before := result;
      result := Scatter(result, missRows[m], evaluated);
      ScatterKeeps(before, result, column, missIds, missRows, m, term);
    }
    forall r | 0 <= r < |column|
      ensures result[r] == term(column[r])
    {
      assert Enumerate(column)[r] == RowAndId(r, column[r]);
      assert RowAndId(r, column[r]) in sortedIndices;
    }
  }

  // ---- All columns ----------------------------------------------------------------------------------------

  datatype BatchEvaluationResult =
    BatchEvaluationResult(variablesByColumn: map<nat, seq<Option<EvaluatedTerm>>>, numRows: nat)

  /** Every column asked for is there, and holds the terms of the batch. */
  ghost predicate Evaluated(batch: BatchEvaluationResult, columns: seq<nat>, rows: seq<Row>, resolve: Resolver) {
    && batch.numRows == |rows|
    && (forall c :: c in columns <==> c in batch.variablesByColumn)
    && forall c | c in columns ::
      && |batch.variablesByColumn[c]| == |rows|
      && forall r | 0 <= r < |rows| :: batch.variablesByColumn[c][r] == resolve(IdAt(rows[r], c))
  }

  ghost predicate SameTerm(resolve: Resolver, known: Resolver, row: Row, c: nat) {
    resolve(IdAt(row, c)) == known(IdAt(row, c))
  }

  /** The resolver of a table says the same as `known` about all ids in these columns of the rows. */
  ghost predicate ResolvesAs(resolve: Resolver, known: Resolver, rows: seq<Row>, columns: seq<nat>) {
    forall r: nat, c: nat | r < |rows| && c in columns :: SameTerm(resolve, known, rows[r], c)
  }

  /** A cache that is correct for the terms known across tables stays so, and the batch gets the terms of its table. */
  method EvaluateBatch(variableColumnIndices: seq<nat>, rows: seq<Row>, idCache: IdCache, resolve: Resolver,
                       ghost known: Resolver)
    returns (batch: BatchEvaluationResult)
    requires forall i, j | 0 <= i < j < |variableColumnIndices| :: variableColumnIndices[i] != variableColumnIndices[j]
    requires idCache.Correct(known) && ResolvesAs(resolve, known, rows, variableColumnIndices)
    modifies idCache
    ensures idCache.Correct(known)
    ensures Evaluated(batch, variableColumnIndices, rows, resolve)
  {
    batch := BatchEvaluationResult(map[], |rows|);
    for i := 0 to |variableColumnIndices|
      invariant idCache.Correct(known)
      invariant Evaluated(batch, variableColumnIndices[..i], rows, resolve)
    {
      var c := variableColumnIndices[i];
      assert c in variableColumnIndices && c !in batch.variablesByColumn;
      var values := EvaluateColumn(c, rows, idCache, resolve, known);
      batch := batch.(variablesByColumn := batch.variablesByColumn[c := values]);
      assert variableColumnIndices[..i + 1] == variableColumnIndices[..i] + [c];
    }
    assert variableColumnIndices[..|variableColumnIndices|] == variableColumnIndices;
  }

  method EvaluateColumn(c: nat, rows: seq<Row>, idCache: IdCache, resolve: Resolver, ghost known: Resolver)
    returns (values: seq<Option<EvaluatedTerm>>)
    requires idCache.Correct(known) && forall r: nat | r < |rows| :: SameTerm(resolve, known, rows[r], c)
    modifies idCache
    ensures idCache.Correct(known)
    ensures |values| == |rows| && forall r | 0 <= r < |rows| :: values[r] == resolve(IdAt(rows[r], c))
  {
    var column := seq(|rows|, r requires 0 <= r < |rows| => IdAt(rows[r], c));
    forall id | id in column
      ensures resolve(id) == known(id)
    {
      var r :| 0 <= r < |rows| && column[r] == id;
      assert SameTerm(resolve, known, rows[r], c);
    }
    var result, _ := EvaluateVariableByColumn(column, idCache, resolve);
    values := result;
    forall r | 0 <= r < |rows|
      ensures values[r] == resolve(IdAt(rows[r], c))
    {
      assert column[r] in column;
    }
  }
}
