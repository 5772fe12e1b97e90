/**
 Counting, for each predicate, the subjects that have it: first the subjects per pattern, then the
 predicates per pattern, in chunks that are counted independently and merged in any order.
 */
module CountAvailablePredicates {
  import opened Tables
  import opened CountingMaps
  import opened GraphPatterns

  type Patterns = seq<seq<Id>>

  // ---- Specification --------------------------------------------------------------------------------

  /** The rows of which the subject differs from that of the row before. */
  ghost predicate IsRunStart(subjects: seq<Id>, i: nat) {
    i < |subjects| && (i == 0 || subjects[i] != subjects[i - 1])
  }

  ghost function RunStarts(subjects: seq<Id>, begin: nat, end: nat): set<nat> {
    set i: nat | begin <= i < end && IsRunStart(subjects, i)
  }

  predicate HasIndex(patternColumn: seq<nat>, i: nat, pattern: nat) {
    i < |patternColumn| && patternColumn[i] == pattern
  }

  predicate ListedFor(patterns: Patterns, patternColumn: seq<nat>, i: nat, p: Id) {
    i < |patternColumn| && patternColumn[i] < |patterns| && p in patterns[patternColumn[i]]
  }

  /** No pattern lists a predicate twice. */
  ghost predicate Distinct(patterns: Patterns) {
    forall k, a, b | 0 <= k < |patterns| && 0 <= a < b < |patterns[k]| :: patterns[k][a] != patterns[k][b]
  }

  type Range = (nat, nat)

  predicate InRange(r: Range, i: nat) {
    r.0 <= i < r.1
  }

  ghost predicate InSome(chunks: seq<Range>, k: nat, i: nat)
    requires k <= |chunks|
  {
    exists a :: 0 <= a < k && InRange(chunks[a], i)
  }

  /** The chunks of a loop over `0 .. n - 1`, in the order in which their results are merged: each index is
      in exactly one of them. */
  ghost predicate IsPartition(chunks: seq<Range>, n: nat) {
    && (forall a | 0 <= a < |chunks| :: chunks[a].0 <= chunks[a].1 <= n)
    && (forall a, b, i: nat | 0 <= a < b < |chunks| && InRange(chunks[a], i) :: !InRange(chunks[b], i))
    && forall i: nat | i < n :: InSome(chunks, |chunks|, i)
  }

  ghost function Covered(chunks: seq<Range>, k: nat, n: nat): set<nat>
    requires k <= |chunks|
  {
    set i: nat | i < n && InSome(chunks, k, i)
  }

  ghost function Indices(r: Range): set<nat> {
    set i: nat | r.0 <= i < r.1 && InRange(r, i)
  }

  lemma CoverMore(chunks: seq<Range>, k: nat, n: nat)
    requires IsPartition(chunks, n) && k < |chunks|
    ensures Covered(chunks, k + 1, n) == Covered(chunks, k, n) + Indices(chunks[k])
    ensures Covered(chunks, k, n) !! Indices(chunks[k])
  {}

  lemma CoverAll(chunks: seq<Range>, n: nat)
    requires IsPartition(chunks, n)
    ensures forall i: nat :: i in Covered(chunks, |chunks|, n) <==> i < n
  {}

  // ---- Counting patterns ------------------------------------------------------------------------------

  method CountChunk(subjects: seq<Id>, patternColumn: seq<nat>, r: Range) returns (counts: MergeableHashMap<nat>)
    requires |patternColumn| == |subjects| && r.0 <= r.1 <= |subjects|
    ensures fresh(counts)
    ensures Counts(counts.content, RunStarts(subjects, r.0, r.1), (i, q) => HasIndex(patternColumn, i, q))
  {
    ghost var has := (i, q) => HasIndex(patternColumn, i, q);
    counts := new MergeableHashMap();
    CountsNothing(has);
    assert RunStarts(subjects, r.0, r.0) == {};
    for i: nat := r.0 to r.1
      invariant fresh(counts)
      invariant Counts(counts.content, RunStarts(subjects, r.0, i), has)
    {
      if i > 0 && subjects[i] == subjects[i - 1] {
        assert RunStarts(subjects, r.0, i + 1) == RunStarts(subjects, r.0, i);
        continue;
      }
      assert RunStarts(subjects, r.0, i + 1) == RunStarts(subjects, r.0, i) + {i};
      ghost var before := counts.content;
      counts.Add(patternColumn[i], 1);
      assert AddedTo(before, {patternColumn[i]}, |{i}|, counts.content);
      CountsAdded(before, RunStarts(subjects, r.0, i), has, {patternColumn[i]}, {i}, counts.content);
    }
  }

  method CountPatterns(subjects: seq<Id>, patternColumn: seq<nat>, chunks: seq<Range>) returns (counts: MergeableHashMap<nat>)
    requires |patternColumn| == |subjects| && IsPartition(chunks, |subjects|)
    ensures Counts(counts.content, RunStarts(subjects, 0, |subjects|), (i, q) => HasIndex(patternColumn, i, q))
  {
    ghost var n := |subjects|;
    ghost var has := (i, q) => HasIndex(patternColumn, i, q);
    ghost var starts := RunStarts(subjects, 0, n);
    counts := new MergeableHashMap();
    CountsNothing(has);
    assert starts * Covered(chunks, 0, n) == {};
    for k := 0 to |chunks|
      invariant fresh(counts)
      invariant Counts(counts.content, starts * Covered(chunks, k, n), has)
    {
      var chunk := CountChunk(subjects, patternColumn, chunks[k]);
      CoverMore(chunks, k, n);
      ghost var more := RunStarts(subjects, chunks[k].0, chunks[k].1);
      assert more == starts * Indices(chunks[k]);
      assert starts * Covered(chunks, k + 1, n) == starts * Covered(chunks, k, n) + more;
      CountsSum(counts.content, starts * Covered(chunks, k, n), chunk.content, more, has);
      counts.Merge(chunk);
    }
    CoverAll(chunks, n);
    assert starts * Covered(chunks, |chunks|, n) == starts;
  }

  // ---- From patterns to predicates --------------------------------------------------------------------

  /** The rows counted for the entries `es` of the list of patterns. */
  ghost function EntryItems(starts: set<nat>, patternColumn: seq<nat>, entries: seq<(nat, nat)>, es: set<nat>): set<nat> {
    set i | i in starts && CountedBySome(patternColumn, entries, es, i)
  }

  ghost predicate CountedBySome(patternColumn: seq<nat>, entries: seq<(nat, nat)>, es: set<nat>, i: nat) {
    exists e :: e in es && CountedBy(patternColumn, entries, e, i)
  }

  ghost predicate CountedBy(patternColumn: seq<nat>, entries: seq<(nat, nat)>, e: nat, i: nat) {
    e < |entries| && HasIndex(patternColumn, i, entries[e].0)
  }

  /** The entries say how many rows there are of each pattern. */
  ghost predicate EntriesFor(starts: set<nat>, patternColumn: seq<nat>, entries: seq<(nat, nat)>) {
    && (forall d, e | 0 <= d < e < |entries| :: entries[d].0 != entries[e].0)
    && (forall e: nat | e < |entries| :: entries[e].1 == |EntryItems(starts, patternColumn, entries, {e})| > 0)
    && forall i | i in starts :: exists e: nat :: CountedBy(patternColumn, entries, e, i)
  }

  lemma EntryMore(starts: set<nat>, patternColumn: seq<nat>, entries: seq<(nat, nat)>, es: set<nat>, more: set<nat>)
    requires EntriesFor(starts, patternColumn, entries) && es !! more
    ensures var all, items, moreItems := EntryItems(starts, patternColumn, entries, es + more),
                                         EntryItems(starts, patternColumn, entries, es),
                                         EntryItems(starts, patternColumn, entries, more);
            all == items + moreItems && items !! moreItems
  {}

  /** The list has each entry of the map once. */
  ghost predicate ListsMap<K(!new)>(entries: seq<(K, nat)>, m: map<K, nat>) {
    && (forall i | 0 <= i < |entries| :: entries[i].0 in m && entries[i].1 == m[entries[i].0])
    && (forall i, j | 0 <= i < j < |entries| :: entries[i].0 != entries[j].0)
    && forall k | k in m :: (k, m[k]) in entries
  }

  lemma EntryCounts(starts: set<nat>, patternColumn: seq<nat>, counts: map<nat, nat>, entries: seq<(nat, nat)>, e: nat)
    requires Counts(counts, starts, (i, q) => HasIndex(patternColumn, i, q))
    requires ListsMap(entries, counts) && e < |entries|
    ensures entries[e].1 == |EntryItems(starts, patternColumn, entries, {e})| > 0
  {
    var has := (i, q) => HasIndex(patternColumn, i, q);
    assert CountsKey(counts, starts, has, entries[e].0);
    assert EntryItems(starts, patternColumn, entries, {e}) == Having(starts, has, entries[e].0) by {
      assert forall i :: CountedBySome(patternColumn, entries, {e}, i) <==> CountedBy(patternColumn, entries, e, i);
    }
  }

  lemma RowHasEntry(starts: set<nat>, patternColumn: seq<nat>, counts: map<nat, nat>, entries: seq<(nat, nat)>, i: nat)
    requires Counts(counts, starts, (i, q) => HasIndex(patternColumn, i, q))
    requires ListsMap(entries, counts) && i in starts && i < |patternColumn|
    ensures exists e: nat :: CountedBy(patternColumn, entries, e, i)
  {
    var has := (i, q) => HasIndex(patternColumn, i, q);
    var q := patternColumn[i];
    assert CountsKey(counts, starts, has, q);
    assert i in Having(starts, has, q);
    var e: nat :| e < |entries| && entries[e] == (q, counts[q]);
    assert CountedBy(patternColumn, entries, e, i);
  }

  lemma EntriesAreFor(starts: set<nat>, patternColumn: seq<nat>, counts: map<nat, nat>, entries: seq<(nat, nat)>)
    requires forall i | i in starts :: i < |patternColumn|
    requires Counts(counts, starts, (i, q) => HasIndex(patternColumn, i, q)) && ListsMap(entries, counts)
    ensures EntriesFor(starts, patternColumn, entries)
  {
    hide Counts, EntryItems, CountedBy;
    forall e: nat | e < |entries|
      ensures entries[e].1 == |EntryItems(starts, patternColumn, entries, {e})| > 0
    {
      EntryCounts(starts, patternColumn, counts, entries, e);
    }
    forall i | i in starts
      ensures exists e: nat :: CountedBy(patternColumn, entries, e, i)
    {
      RowHasEntry(starts, patternColumn, counts, entries, i);
    }
  }

  ghost function SetOf(pattern: seq<Id>): set<Id> {
    set p | p in pattern
  }

  method AddPattern(counts: MergeableHashMap<Id>, pattern: seq<Id>, n: nat)
    requires forall a, b | 0 <= a < b < |pattern| :: pattern[a] != pattern[b]
    modifies counts
    ensures AddedTo(old(counts.content), SetOf(pattern), n, counts.content)
  {
    for k := 0 to |pattern|
      invariant AddedTo(old(counts.content), SetOf(pattern[..k]), n, counts.content)
    {
      assert pattern[..k + 1] == pattern[..k] + [pattern[k]];
      assert pattern[k] !in pattern[..k];
      counts.Add(pattern[k], n);
    }
    assert pattern[..|pattern|] == pattern;
  }

  predicate IsIllegal(patterns: Patterns, pattern: nat) {
    pattern >= |patterns| && pattern != NO_PATTERN
  }

  /** One iteration of the loop over the patterns. */
  method Translate(counts: MergeableHashMap<Id>, entries: seq<(nat, nat)>, e: nat, patterns: Patterns,
                   ghost starts: set<nat>, ghost patternColumn: seq<nat>, ghost done: set<nat>)
    returns (illegal: bool)
    requires e < |entries| && e !in done && Distinct(patterns) && EntriesFor(starts, patternColumn, entries)
    requires Counts(counts.content, EntryItems(starts, patternColumn, entries, done),
                    (i, p) => ListedFor(patterns, patternColumn, i, p))
    modifies counts
    ensures Counts(counts.content, EntryItems(starts, patternColumn, entries, done + {e}),
                   (i, p) => ListedFor(patterns, patternColumn, i, p))
    ensures illegal <==> IsIllegal(patterns, entries[e].0)
  {
    hide Counts, EntryItems;
    ghost var has := (i, p) => ListedFor(patterns, patternColumn, i, p);
    ghost var before := counts.content;
    var (patternIndex, patternCount) := entries[e];
    ghost var keys: set<Id> := {};
    if patternIndex >= |patterns| {
      illegal := patternIndex != NO_PATTERN;
    } else {
      illegal := false;
      AddPattern(counts, patterns[patternIndex], patternCount);
      keys := SetOf(patterns[patternIndex]);
    }
    EntryMore(starts, patternColumn, entries, done, {e});
    OnlyEntry(starts, patternColumn, entries, e);
    CountsAdded(before, EntryItems(starts, patternColumn, entries, done), has, keys,
                EntryItems(starts, patternColumn, entries, {e}), counts.content);
  }

  lemma OnlyEntry(starts: set<nat>, patternColumn: seq<nat>, entries: seq<(nat, nat)>, e: nat)
    requires e < |entries| && EntriesFor(starts, patternColumn, entries)
    ensures forall i | i in EntryItems(starts, patternColumn, entries, {e}) :: HasIndex(patternColumn, i, entries[e].0)
    ensures |EntryItems(starts, patternColumn, entries, {e})| == entries[e].1
    ensures EntryItems(starts, patternColumn, entries, {e}) != {}
  {}

  method TranslateChunk(entries: seq<(nat, nat)>, r: Range, patterns: Patterns,
                        ghost starts: set<nat>, ghost patternColumn: seq<nat>)
    returns (counts: MergeableHashMap<Id>, illegal: bool)
    requires r.0 <= r.1 <= |entries| && Distinct(patterns) && EntriesFor(starts, patternColumn, entries)
    ensures fresh(counts)
    ensures Counts(counts.content, EntryItems(starts, patternColumn, entries, Indices(r)),
                   (i, p) => ListedFor(patterns, patternColumn, i, p))
    ensures illegal <==> exists e :: r.0 <= e < r.1 && IsIllegal(patterns, entries[e].0)
  {
    hide Counts, EntriesFor, Distinct;
    ghost var has := (i, p) => ListedFor(patterns, patternColumn, i, p);
    counts := new MergeableHashMap();
    illegal := false;
    CountsNothing(has);
    assert EntryItems(starts, patternColumn, entries, Indices((r.0, r.0))) == {};
    for e: nat := r.0 to r.1
      invariant fresh(counts)
      invariant Counts(counts.content, EntryItems(starts, patternColumn, entries, Indices((r.0, e))), has)
      invariant illegal <==> exists d :: r.0 <= d < e && IsIllegal(patterns, entries[d].0)
    {
      var bad := Translate(counts, entries, e, patterns, starts, patternColumn, Indices((r.0, e)));
      assert Indices((r.0, e + 1)) == Indices((r.0, e)) + {e};
      illegal := illegal || bad;
    }
    assert (r.0, r.1) == r;
  }

  method TranslatePatterns(entries: seq<(nat, nat)>, chunks: seq<Range>, patterns: Patterns,
                           ghost starts: set<nat>, ghost patternColumn: seq<nat>)
    returns (counts: MergeableHashMap<Id>, illegal: bool)
    requires IsPartition(chunks, |entries|) && Distinct(patterns) && EntriesFor(starts, patternColumn, entries)
    ensures Counts(counts.content, starts, (i, p) => ListedFor(patterns, patternColumn, i, p))
    ensures illegal <==> exists e :: 0 <= e < |entries| && IsIllegal(patterns, entries[e].0)
  {
    ghost var n := |entries|;
    ghost var has := (i, p) => ListedFor(patterns, patternColumn, i, p);
    counts := new MergeableHashMap();
    illegal := false;
    CountsNothing(has);
    assert EntryItems(starts, patternColumn, entries, Covered(chunks, 0, n)) == {};
    assert Covered(chunks, 0, n) == {};
    hide Counts, EntriesFor, Distinct, EntryItems, Covered, IsIllegal;
    for k := 0 to |chunks|
      invariant fresh(counts)
      invariant Counts(counts.content, EntryItems(starts, patternColumn, entries, Covered(chunks, k, n)), has)
      invariant illegal <==> exists e :: e in Covered(chunks, k, n) && IsIllegal(patterns, entries[e].0)
    {
      var chunk, bad := TranslateChunk(entries, chunks[k], patterns, starts, patternColumn);
      CoverMore(chunks, k, n);
      EntryMore(starts, patternColumn, entries, Covered(chunks, k, n), Indices(chunks[k]));
      CountsSum(counts.content, EntryItems(starts, patternColumn, entries, Covered(chunks, k, n)),
                chunk.content, EntryItems(starts, patternColumn, entries, Indices(chunks[k])), has);
      counts.Merge(chunk);
      illegal := illegal || bad;
    }
    CoverAll(chunks, n);
    AllItems(starts, patternColumn, entries, Covered(chunks, |chunks|, n));
  }

  lemma AllItems(starts: set<nat>, patternColumn: seq<nat>, entries: seq<(nat, nat)>, es: set<nat>)
    requires EntriesFor(starts, patternColumn, entries) && forall e: nat | e < |entries| :: e in es
    ensures EntryItems(starts, patternColumn, entries, es) == starts
  {}

  // ---- The subjects that have a predicate -------------------------------------------------------------

  /** The distinct subjects of which the pattern lists `p`. */
  ghost function SubjectsListing(subjects: seq<Id>, patternColumn: seq<nat>, patterns: Patterns, p: Id): set<Id> {
    set i | 0 <= i < |subjects| && ListedFor(patterns, patternColumn, i, p) :: subjects[i]
  }

  ghost predicate Sorted(subjects: seq<Id>) {
    forall i, j | 0 <= i < j < |subjects| :: subjects[i] <= subjects[j]
  }

  /** The pattern depends only on the subject. */
  ghost predicate PatternPerSubject(subjects: seq<Id>, patternColumn: seq<nat>) {
    && |patternColumn| == |subjects|
    && forall i, j | 0 <= i < |subjects| && 0 <= j < |subjects| && subjects[i] == subjects[j] ::
         patternColumn[i] == patternColumn[j]
  }

  lemma {:induction false} StartOf(subjects: seq<Id>, i: nat) returns (j: nat)
    requires i < |subjects|
    ensures j <= i && IsRunStart(subjects, j) && subjects[j] == subjects[i]
  {
    if i == 0 || subjects[i] != subjects[i - 1] {
      j := i;
    } else {
      j := StartOf(subjects, i - 1);
    }
  }

  lemma StartsDiffer(subjects: seq<Id>, i: nat, j: nat)
    requires Sorted(subjects) && i < j && IsRunStart(subjects, j)
    ensures subjects[i] != subjects[j]
  {
    assert subjects[i] <= subjects[j - 1] <= subjects[j];
  }

  ghost function At(subjects: seq<Id>, indices: set<nat>): set<Id> {
    set i | i in indices && i < |subjects| :: subjects[i]
  }

  lemma {:induction false} DistinctAt(subjects: seq<Id>, indices: set<nat>)
    requires forall i | i in indices :: i < |subjects|
    requires forall i, j | i in indices && j in indices && i != j :: subjects[i] != subjects[j]
    ensures |At(subjects, indices)| == |indices|
    decreases |indices|
  {
    if indices != {} {
      var k :| k in indices;
      DistinctAt(subjects, indices - {k});
      assert At(subjects, indices) == At(subjects, indices - {k}) + {subjects[k]};
      assert subjects[k] !in At(subjects, indices - {k});
    }
  }

  /** In a sorted column, counting runs is counting distinct subjects. */
  lemma RunsAreSubjects(subjects: seq<Id>, patternColumn: seq<nat>, patterns: Patterns, p: Id)
    requires Sorted(subjects) && PatternPerSubject(subjects, patternColumn)
    ensures |Having(RunStarts(subjects, 0, |subjects|), (i, p) => ListedFor(patterns, patternColumn, i, p), p)|
         == |SubjectsListing(subjects, patternColumn, patterns, p)|
  {
    var starts := Having(RunStarts(subjects, 0, |subjects|), (i, p) => ListedFor(patterns, patternColumn, i, p), p);
    forall i, j | i in starts && j in starts && i != j
      ensures subjects[i] != subjects[j]
    {
      if i < j {
        StartsDiffer(subjects, i, j);
      } else {
        StartsDiffer(subjects, j, i);
      }
    }
    DistinctAt(subjects, starts);
    forall i: nat | i < |subjects| && ListedFor(patterns, patternColumn, i, p)
      ensures subjects[i] in At(subjects, starts)
    {
      var j := StartOf(subjects, i);
      assert j in starts;
    }
    assert At(subjects, starts) == SubjectsListing(subjects, patternColumn, patterns, p);
  }

  // ---- The result -------------------------------------------------------------------------------------

  /** The rows say of each predicate how many distinct subjects have it; predicates that no subject has
      are left out. */
  ghost predicate IsResult(rows: seq<(Id, nat)>, subjects: seq<Id>, patternColumn: seq<nat>, patterns: Patterns) {
    && (forall i, j | 0 <= i < j < |rows| :: rows[i].0 != rows[j].0)
    && forall p: Id, n: nat :: (p, n) in rows <==> n == |SubjectsListing(subjects, patternColumn, patterns, p)| > 0
  }

  ghost predicate HasIllegal(patternColumn: seq<nat>, patterns: Patterns) {
    exists i :: 0 <= i < |patternColumn| && IsIllegal(patterns, patternColumn[i])
  }

  lemma ResultIsRight(rows: seq<(Id, nat)>, counts: map<Id, nat>, subjects: seq<Id>, patternColumn: seq<nat>,
                      patterns: Patterns)
    requires Sorted(subjects) && PatternPerSubject(subjects, patternColumn) && ListsMap(rows, counts)
    requires Counts(counts, RunStarts(subjects, 0, |subjects|), (i, p) => ListedFor(patterns, patternColumn, i, p))
    ensures IsResult(rows, subjects, patternColumn, patterns)
  {
    hide SubjectsListing, Having;
    var has := (i, p) => ListedFor(patterns, patternColumn, i, p);
    forall p: Id, n: nat
      ensures (p, n) in rows <==> n == |SubjectsListing(subjects, patternColumn, patterns, p)| > 0
    {
      assert CountsKey(counts, RunStarts(subjects, 0, |subjects|), has, p);
      RunsAreSubjects(subjects, patternColumn, patterns, p);
      assert (p, n) in rows <==> p in counts && counts[p] == n;
    }
  }

  lemma IllegalIsFound(subjects: seq<Id>, patternColumn: seq<nat>, patterns: Patterns, entries: seq<(nat, nat)>)
    requires PatternPerSubject(subjects, patternColumn)
    requires EntriesFor(RunStarts(subjects, 0, |subjects|), patternColumn, entries)
    ensures HasIllegal(patternColumn, patterns) <==> exists e :: 0 <= e < |entries| && IsIllegal(patterns, entries[e].0)
  {
    hide EntryItems;
    var starts := RunStarts(subjects, 0, |subjects|);
    if HasIllegal(patternColumn, patterns) {
      var i: nat :| i < |patternColumn| && IsIllegal(patterns, patternColumn[i]);
      var j := StartOf(subjects, i);
      assert j in starts;
      var e: nat :| CountedBy(patternColumn, entries, e, j);
      assert IsIllegal(patterns, entries[e].0);
    }
    if e: nat :| e < |entries| && IsIllegal(patterns, entries[e].0) {
      OnlyEntry(starts, patternColumn, entries, e);
      var i :| i in EntryItems(starts, patternColumn, entries, {e});
      assert IsIllegal(patterns, patternColumn[i]);
    }
  }

  /** The number of distinct subjects for each predicate, however the two loops are cut into chunks and in
      whichever order these are merged. Fails exactly when a pattern does not exist. */
  method ComputePatternTrick(subjects: seq<Id>, patternColumn: seq<nat>, patterns: Patterns,
                             rowChunks: nat -> seq<Range>, patternChunks: nat -> seq<Range>)
    returns (result: Option<seq<(Id, nat)>>)
    requires Sorted(subjects) && PatternPerSubject(subjects, patternColumn) && Distinct(patterns)
    requires forall n :: IsPartition(rowChunks(n), n) && IsPartition(patternChunks(n), n)
    ensures result.None? <==> HasIllegal(patternColumn, patterns)
    ensures result.Some? ==> IsResult(result.value, subjects, patternColumn, patterns)
  {
    hide Counts, RunStarts, EntriesFor, Distinct, IsPartition, Sorted, PatternPerSubject, IsResult;
    ghost var starts := RunStarts(subjects, 0, |subjects|);
    assert |patternColumn| == |subjects| && forall i | i in starts :: i < |subjects| by {
      StartsAreRows(subjects, patternColumn);
    }
    var patternCounts := CountPatterns(subjects, patternColumn, rowChunks(|subjects|));
    var patternVec := Entries(patternCounts.content);
    EntriesAreFor(starts, patternColumn, patternCounts.content, patternVec);
    var predicateCounts, illegalPatternIndexFound :=
      TranslatePatterns(patternVec, patternChunks(|patternVec|), patterns, starts, patternColumn);
    IllegalIsFound(subjects, patternColumn, patterns, patternVec);
    if illegalPatternIndexFound {
      return None;
    }
    var rows := Entries(predicateCounts.content);
    ResultIsRight(rows, predicateCounts.content, subjects, patternColumn, patterns);
    return Some(rows);
  }

  lemma StartsAreRows(subjects: seq<Id>, patternColumn: seq<nat>)
    requires PatternPerSubject(subjects, patternColumn)
    ensures |patternColumn| == |subjects| && forall i | i in RunStarts(subjects, 0, |subjects|) :: i < |subjects|
  {}

  // ---- All entities -------------------------------------------------------------------------------------

  /** A scan that lists each subject with its pattern. Fails when a pattern does not exist; here, every
      subject must have one. */
  method ComputePatternTrickAllEntities(blocks: seq<seq<(Id, nat)>>, patterns: Patterns)
    returns (result: Option<seq<(Id, nat)>>)
    requires Distinct(patterns)
    requires ScansOnce(Concat(blocks))
    ensures var rows := Concat(blocks);
            result.None? <==> exists i :: 0 <= i < |rows| && rows[i].1 >= |patterns|
    ensures result.Some? ==> IsResult(result.value, Column0(Concat(blocks)), Column1(Concat(blocks)), patterns)
  {
    ghost var rows := Concat(blocks);
    ghost var subjects, patternColumn := Column0(rows), Column1(rows);
    ghost var starts := RunStarts(subjects, 0, |subjects|);
    ScanIsSorted(rows);
    hide Distinct, EntriesFor, Sorted, PatternPerSubject, IsResult, RunStarts, Column0, Column1, Counts;
    var patternCounts := CountScannedPatterns(blocks, starts);
    var entries := Entries(patternCounts.content);
    EntriesAreFor(starts, patternColumn, patternCounts.content, entries);
    var predicateCounts := TranslateAll(entries, patterns, starts, patternColumn);
    if predicateCounts.None? {
      return None;
    }
    var list := Entries(predicateCounts.value);
    ResultIsRight(list, predicateCounts.value, subjects, patternColumn, patterns);
    return Some(list);
  }

  /** The loop over the patterns, which stops at one that does not exist. */
  method TranslateAll(entries: seq<(nat, nat)>, patterns: Patterns, ghost starts: set<nat>, ghost patternColumn: seq<nat>)
    returns (counts: Option<map<Id, nat>>)
    requires Distinct(patterns) && EntriesFor(starts, patternColumn, entries)
    requires forall i: nat :: i in starts <==> i < |patternColumn|
    ensures counts.None? <==> exists i :: 0 <= i < |patternColumn| && patternColumn[i] >= |patterns|
    ensures counts.Some? ==> Counts(counts.value, starts, (i, p) => ListedFor(patterns, patternColumn, i, p))
  {
    hide Distinct, EntriesFor, Counts, EntryItems;
    var predicateCounts := new MergeableHashMap<Id>();
    ghost var has := (i, p) => ListedFor(patterns, patternColumn, i, p);
    CountsNothing(has);
    NoItems(starts, patternColumn, entries);
    for e: nat := 0 to |entries|
      invariant fresh(predicateCounts)
      invariant Counts(predicateCounts.content, EntryItems(starts, patternColumn, entries, Indices((0, e))), has)
      invariant forall d | 0 <= d < e :: entries[d].0 < |patterns|
    {
      if entries[e].0 >= |patterns| {
        MissingIsFound(starts, patternColumn, entries, e);
        return None;
      }
      var _ := Translate(predicateCounts, entries, e, patterns, starts, patternColumn, Indices((0, e)));
      assert Indices((0, e + 1)) == Indices((0, e)) + {e};
    }
    AllItems(starts, patternColumn, entries, Indices((0, |entries|)));
    AllLegal(starts, patternColumn, entries, |patterns|);
    return Some(predicateCounts.content);
  }

  lemma NoItems(starts: set<nat>, patternColumn: seq<nat>, entries: seq<(nat, nat)>)
    ensures EntryItems(starts, patternColumn, entries, Indices((0, 0))) == {}
  {}

  lemma ScanIsSorted(rows: seq<(Id, nat)>)
    requires ScansOnce(rows)
    ensures Sorted(Column0(rows)) && PatternPerSubject(Column0(rows), Column1(rows))
    ensures |Column0(rows)| == |Column1(rows)| == |rows|
    ensures forall i | 0 <= i < |rows| :: Column1(rows)[i] == rows[i].1
    ensures forall i: nat :: i in RunStarts(Column0(rows), 0, |rows|) <==> i < |rows|
  {
    forall i, j | 0 <= i < |rows| && 0 <= j < |rows| && i != j
      ensures Column0(rows)[i] != Column0(rows)[j]
    {
      assert i < j ==> rows[i].0 < rows[j].0;
      assert j < i ==> rows[j].0 < rows[i].0;
    }
  }

  /** The rows are sorted by their subjects, and each subject has one. */
  ghost predicate ScansOnce(rows: seq<(Id, nat)>) {
    forall i, j | 0 <= i < j < |rows| :: rows[i].0 < rows[j].0
  }

  ghost function Column0(rows: seq<(Id, nat)>): seq<Id> {
    seq(|rows|, i requires 0 <= i < |rows| => rows[i].0)
  }

  ghost function Column1(rows: seq<(Id, nat)>): seq<nat> {
    seq(|rows|, i requires 0 <= i < |rows| => rows[i].1)
  }

  lemma MissingIsFound(starts: set<nat>, patternColumn: seq<nat>, entries: seq<(nat, nat)>, e: nat)
    requires e < |entries| && EntriesFor(starts, patternColumn, entries)
    ensures exists i :: 0 <= i < |patternColumn| && patternColumn[i] == entries[e].0
  {
    OnlyEntry(starts, patternColumn, entries, e);
    var i :| i in EntryItems(starts, patternColumn, entries, {e});
  }

  lemma AllLegal(starts: set<nat>, patternColumn: seq<nat>, entries: seq<(nat, nat)>, n: nat)
    requires EntriesFor(starts, patternColumn, entries) && forall d | 0 <= d < |entries| :: entries[d].0 < n
    ensures forall i | i in starts && i < |patternColumn| :: patternColumn[i] < n
  {}

  method CountScannedPatterns(blocks: seq<seq<(Id, nat)>>, ghost rows: set<nat>) returns (counts: MergeableHashMap<nat>)
    requires forall i: nat :: i in rows <==> i < |Concat(blocks)|
    ensures fresh(counts)
    ensures Counts(counts.content, rows, (i, q) => HasIndex(Column1(Concat(blocks)), i, q))
  {
    ghost var column := Column1(Concat(blocks));
    ghost var has := (i, q) => HasIndex(column, i, q);
    ghost var seen: seq<(Id, nat)> := [];
    counts := new MergeableHashMap();
    CountsNothing(has);
    assert UpTo(0) == {};
    for b := 0 to |blocks|
      invariant fresh(counts)
      invariant seen == Concat(blocks[..b]) && Counts(counts.content, UpTo(|seen|), has)
    {
      ConcatSnoc(blocks[..b], blocks[b]);
      assert blocks[..b + 1] == blocks[..b] + [blocks[b]];
      ConcatAppend(blocks[..b + 1], blocks[b + 1..]);
      assert blocks == blocks[..b + 1] + blocks[b + 1..];
      ghost var before := seen;
      for k := 0 to |blocks[b]|
        invariant fresh(counts)
        invariant seen == before + blocks[b][..k] && Counts(counts.content, UpTo(|seen|), has)
      {
        var pattern := blocks[b][k].1;
        assert Concat(blocks)[|seen|] == blocks[b][k] && column[|seen|] == pattern;
        counts := CountRow(counts, pattern, |seen|, column);
        seen := seen + [blocks[b][k]];
      }
    }
    assert blocks[..|blocks|] == blocks;
    assert UpTo(|seen|) == rows;
  }

  ghost function UpTo(n: nat): set<nat> {
    Indices((0, n))
  }

  method CountRow(counts: MergeableHashMap<nat>, pattern: nat, ghost i: nat, ghost column: seq<nat>)
    returns (same: MergeableHashMap<nat>)
    requires i < |column| && column[i] == pattern
    requires Counts(counts.content, UpTo(i), (i, q) => HasIndex(column, i, q))
    modifies counts
    ensures same == counts && Counts(counts.content, UpTo(i + 1), (i, q) => HasIndex(column, i, q))
  {
    ghost var before := counts.content;
    counts.Add(pattern, 1);
    assert AddedTo(before, {pattern}, |{i}|, counts.content);
    CountsAdded(before, UpTo(i), (i, q) => HasIndex(column, i, q), {pattern}, {i}, counts.content);
    assert UpTo(i + 1) == UpTo(i) + {i};
    same := counts;
  }
}
