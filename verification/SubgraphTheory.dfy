/**
 What the connected-subgraph counter counts, in terms of sets of nodes: connected node sets,
 defined by paths, and the extensions a partial set may still receive, defined by cuts.
 */
module SubgraphTheory {
  import opened Bitset

  /** Node `i` is adjacent to the nodes in `g[i]`. */
  type Graph = seq<set<nat>>

  ghost predicate Edge(g: Graph, x: nat, y: nat) {
    x < |g| && y in g[x]
  }

  /** Every neighbor is a node. */
  ghost predicate Valid(g: Graph) {
    forall x: nat, y: nat :: Edge(g, x, y) ==> y < |g|
  }

  ghost predicate Symmetric(g: Graph) {
    forall x: nat, y: nat :: Edge(g, x, y) ==> Edge(g, y, x)
  }

  ghost predicate LoopFree(g: Graph) {
    forall x: nat :: !Edge(g, x, x)
  }

  // ---- Connected sets -----------------------------------------------------------------------

  ghost predicate IsPath(g: Graph, c: set<nat>, p: seq<nat>, x: nat, y: nat) {
    && |p| > 0 && p[0] == x && p[|p| - 1] == y
    && (forall k | 0 <= k < |p| :: p[k] in c)
    && (forall k | 0 <= k < |p| - 1 :: Edge(g, p[k], p[k + 1]))
  }

  ghost predicate Linked(g: Graph, c: set<nat>, x: nat, y: nat) {
    exists p :: IsPath(g, c, p, x, y)
  }

  /** A non-empty node set in which every two nodes are joined by a path inside the set. */
  ghost predicate Connected(g: Graph, c: set<nat>) {
    && c != {} && c <= Below(|g|)
    && forall x, y | x in c && y in c :: Linked(g, c, x, y)
  }

  ghost function ConnectedSets(g: Graph): set<set<nat>> {
    set c | c <= Below(|g|) && Connected(g, c)
  }

  /** Some edge leads from `b` into `d`. */
  ghost predicate Crosses(g: Graph, b: set<nat>, d: set<nat>) {
    exists x, y :: x in b && y in d && Edge(g, x, y)
  }

  /** Starting from `s`, the nodes of `u` can be added one edge at a time: from any set in between
      an edge leads to a node of `u` that is still missing. */
  ghost predicate Grows(g: Graph, s: set<nat>, u: set<nat>) {
    forall b: set<nat> :: s <= b && !(u <= b) ==> Crosses(g, b, u - b)
  }

  lemma {:induction false} PathCrosses(g: Graph, c: set<nat>, p: seq<nat>, x: nat, y: nat, b: set<nat>)
    requires IsPath(g, c, p, x, y) && x in b && y !in b
    ensures Crosses(g, b, c - b)
    decreases |p|
  {
    if p[1] in b {
      PathCrosses(g, c, p[1..], p[1], y, b);
    } else {
      assert Edge(g, p[0], p[0 + 1]);
    }
  }

  lemma PathExtends(g: Graph, c: set<nat>, x: nat, y: nat, z: nat)
    requires Linked(g, c, x, y) && Edge(g, y, z) && z in c
    ensures Linked(g, c, x, z)
  {
    var p :| IsPath(g, c, p, x, y);
    assert IsPath(g, c, p + [z], x, z);
  }

  lemma {:induction false} PathFrom(g: Graph, c: set<nat>, p: seq<nat>, w: nat, x: nat, y: nat)
    requires Symmetric(g) && IsPath(g, c, p, w, x) && Linked(g, c, w, y)
    ensures Linked(g, c, x, y)
    decreases |p|
  {
    if |p| > 1 {
      var q :| IsPath(g, c, q, w, y);
      assert Edge(g, p[0], p[0 + 1]);
      assert IsPath(g, c, [p[1]] + q, p[1], y);
      PathFrom(g, c, p[1..], p[1], x, y);
    }
  }

  /** Connectedness by paths and by cuts agree, whichever node one starts from. */
  lemma ConnectedIffGrows(g: Graph, c: set<nat>, m: nat)
    requires Symmetric(g) && c <= Below(|g|) && m in c
    ensures Connected(g, c) <==> Grows(g, {m}, c - {m})
  {
    if Connected(g, c) {
      ConnectedGrows(g, c, m);
    }
    if Grows(g, {m}, c - {m}) {
      GrowsLinks(g, c, m);
      forall x, y | x in c && y in c
        ensures Linked(g, c, x, y)
      {
        var p :| IsPath(g, c, p, m, x);
        PathFrom(g, c, p, m, x, y);
      }
    }
  }

  lemma ConnectedGrows(g: Graph, c: set<nat>, m: nat)
    requires Connected(g, c) && m in c
    ensures Grows(g, {m}, c - {m})
  {
    forall b: set<nat> | {m} <= b && !(c - {m} <= b)
      ensures Crosses(g, b, (c - {m}) - b)
    {
      var y :| y in c - {m} && y !in b;
      assert Linked(g, c, m, y);
      var p :| IsPath(g, c, p, m, y);
      PathCrosses(g, c, p, m, y, b);
      assert c - b == (c - {m}) - b;
    }
  }

  lemma GrowsLinks(g: Graph, c: set<nat>, m: nat)
    requires m in c && Grows(g, {m}, c - {m})
    ensures forall x | x in c :: Linked(g, c, m, x)
  {
    var r := set x | x in c && Linked(g, c, m, x);
    assert IsPath(g, c, [m], m, m);
    if r != c {
      assert !(c - {m} <= r);
      assert Crosses(g, r, (c - {m}) - r);
      var x, y :| x in r && y in (c - {m}) - r && Edge(g, x, y);
      PathExtends(g, c, m, x, y);
    }
  }

  // ---- Extensions ---------------------------------------------------------------------------

  ghost function Neighbors(g: Graph, s: set<nat>): set<nat> {
    set x, y | x in s && x < |g| && y in g[x] :: y
  }

  /** `u` is a set of nodes outside `x` that can be added to `s`, edge by edge. A node of `s`
      itself may be in `u` only when it is a neighbor of `s`. */
  ghost predicate IsExtension(g: Graph, s: set<nat>, x: set<nat>, u: set<nat>) {
    && u != {} && u !! x && u * s <= Neighbors(g, s) && Grows(g, s, u)
  }

  ghost function Extensions(g: Graph, s: set<nat>, x: set<nat>): set<set<nat>> {
    set u | u <= Below(|g|) && IsExtension(g, s, x, u)
  }

  /** The nodes a call for `s` excludes from its nested calls. */
  ghost function Closed(g: Graph, s: set<nat>, x: set<nat>): set<nat> {
    x + (Neighbors(g, s) - x) + s
  }

  lemma FirstStep(g: Graph, s: set<nat>, u: set<nat>)
    requires u != {} && u * s <= Neighbors(g, s) && Grows(g, s, u)
    ensures u * Neighbors(g, s) != {}
  {
    var z :| z in u;
    if z in s {
      assert z in u * s;
      assert z in u * Neighbors(g, s);
    } else {
      assert Crosses(g, s, u - s);
      var w, y :| w in s && y in u - s && Edge(g, w, y);
      assert y in u * Neighbors(g, s);
    }
  }

  lemma SplitSets(n: set<nat>, s: set<nat>, x: set<nat>, u: set<nat>)
    requires u !! x && u * s <= n
    ensures u * n <= n - x
    ensures u - u * n !! x + (n - x) + s
    ensures (u - u * n) * (s + u * n) == {}
  {}

  /** An extension splits into the neighbors it adds first and an extension of what results. */
  lemma SplitExtension(g: Graph, s: set<nat>, x: set<nat>, u: set<nat>, a: set<nat>)
    requires IsExtension(g, s, x, u) && a == u * Neighbors(g, s)
    ensures a != {} && a <= Neighbors(g, s) - x
    ensures u - a == {} || IsExtension(g, s + a, Closed(g, s, x), u - a)
  {
    FirstStep(g, s, u);
    SplitSets(Neighbors(g, s), s, x, u);
    SplitGrows(g, s, u, a);
  }

  lemma SplitGrows(g: Graph, s: set<nat>, u: set<nat>, a: set<nat>)
    requires Grows(g, s, u)
    ensures Grows(g, s + a, u - a)
  {
    forall b: set<nat> | s + a <= b && !(u - a <= b)
      ensures Crosses(g, b, (u - a) - b)
    {
      assert (u - a) - b == u - b;
      assert s <= b;
    }
  }

  lemma JoinGrows(g: Graph, s: set<nat>, a: set<nat>, t: set<nat>)
    requires a <= Neighbors(g, s)
    requires Grows(g, s + a, t)
    ensures Grows(g, s, a + t)
  {
    forall b: set<nat> | s <= b && !(a + t <= b)
      ensures Crosses(g, b, (a + t) - b)
    {
      if a <= b {
        assert (a + t) - b == t - b;
      } else {
        var z :| z in a && z !in b;
        var w :| w in s && Edge(g, w, z);
        assert w in b && z in (a + t) - b;
      }
    }
  }

  lemma JoinSets(n: set<nat>, s: set<nat>, x: set<nat>, a: set<nat>, t: set<nat>)
    requires a <= n - x && t !! x + (n - x) + s
    ensures a + t !! x && (a + t) * s <= n && (a + t) * n == a && t !! a
  {}

  /** Conversely, any non-empty choice of neighbors followed by an extension is an extension. */
  lemma JoinExtension(g: Graph, s: set<nat>, x: set<nat>, a: set<nat>, t: set<nat>)
    requires a != {} && a <= Neighbors(g, s) - x
    requires t == {} || IsExtension(g, s + a, Closed(g, s, x), t)
    ensures IsExtension(g, s, x, a + t) && (a + t) * Neighbors(g, s) == a
    ensures t !! a
  {
    JoinSets(Neighbors(g, s), s, x, a, t);
    assert Grows(g, s + a, t);
    JoinGrows(g, s, a, t);
  }

  /** The extensions whose first step is exactly `a`. */
  ghost function Piece(g: Graph, s: set<nat>, x: set<nat>, a: set<nat>): set<set<nat>> {
    set u | u in Extensions(g, s, x) && u * Neighbors(g, s) == a
  }

  lemma AddCancels(a: set<nat>, t: set<nat>, u: set<nat>)
    ensures t !! a && a + t == u ==> t == u - a
    ensures a <= u ==> a + (u - a) == u
  {}

  /** Adding the disjoint set `a` to each member of `ts` gives `p`, which is as large as `ts`. */
  lemma {:induction false} ShiftedSize(p: set<set<nat>>, ts: set<set<nat>>, a: set<nat>)
    requires forall t | t in ts :: t !! a && a + t in p
    requires forall u | u in p :: a <= u && u - a in ts
    ensures |p| == |ts|
    decreases |ts|
  {
    if ts == {} {
      assert p == {};
    } else {
      var t :| t in ts;
      ShiftedWithout(p, ts, a, t);
      ShiftedSize(p - {a + t}, ts - {t}, a);
    }
  }

  lemma ShiftedWithout(p: set<set<nat>>, ts: set<set<nat>>, a: set<nat>, t: set<nat>)
    requires forall t | t in ts :: t !! a && a + t in p
    requires forall u | u in p :: a <= u && u - a in ts
    requires t in ts
    ensures forall r | r in ts - {t} :: r !! a && a + r in p - {a + t}
    ensures forall u | u in p - {a + t} :: a <= u && u - a in ts - {t}
  {
    forall r | r in ts - {t}
      ensures a + r != a + t
    {
      AddCancels(a, r, a + t);
      AddCancels(a, t, a + t);
    }
    forall u | u in p - {a + t}
      ensures u - a != t
    {
      AddCancels(a, t, u);
    }
  }

  lemma PieceSize(g: Graph, s: set<nat>, x: set<nat>, a: set<nat>)
    requires Valid(g) && a != {} && a <= Neighbors(g, s) - x
    ensures |Piece(g, s, x, a)| == 1 + |Extensions(g, s + a, Closed(g, s, x))|
  {
    var ts := Extensions(g, s + a, Closed(g, s, x));
    var all := ts + {{}};
    assert {} !in ts;
    forall t | t in all
      ensures t !! a && a + t in Piece(g, s, x, a)
    {
      PieceHas(g, s, x, a, t);
    }
    forall u | u in Piece(g, s, x, a)
      ensures a <= u && u - a in all
    {
      PieceMember(g, s, x, a, u);
    }
    ShiftedSize(Piece(g, s, x, a), all, a);
  }

  lemma PieceHas(g: Graph, s: set<nat>, x: set<nat>, a: set<nat>, t: set<nat>)
    requires Valid(g) && a != {} && a <= Neighbors(g, s) - x
    requires t == {} || t in Extensions(g, s + a, Closed(g, s, x))
    ensures t !! a && a + t in Piece(g, s, x, a)
  {
    JoinExtension(g, s, x, a, t);
    NeighborsAreNodes(g, s);
  }

  lemma PieceMember(g: Graph, s: set<nat>, x: set<nat>, a: set<nat>, u: set<nat>)
    requires u in Piece(g, s, x, a)
    ensures u - a == {} || u - a in Extensions(g, s + a, Closed(g, s, x))
    ensures a <= u
  {
    SplitExtension(g, s, x, u, a);
  }

  lemma NeighborsAreNodes(g: Graph, s: set<nat>)
    requires Valid(g)
    ensures Neighbors(g, s) <= Below(|g|)
  {
    forall y | y in Neighbors(g, s)
      ensures y in Below(|g|)
    {
      var x :| x in s && Edge(g, x, y);
    }
  }

  // ---- The number of sets found -------------------------------------------------------------

  /** For each start node, one set for the node alone and one for each extension that avoids the
      smaller nodes. */
  ghost function Found(g: Graph, n: nat): nat {
    if n == 0 then 0 else Found(g, n - 1) + 1 + |Extensions(g, {n - 1}, Below(n - 1))|
  }

  /** The connected sets whose smallest node is `n`. */
  ghost function WithLeast(g: Graph, n: nat): set<set<nat>> {
    set c | c in ConnectedSets(g) && n in c && c !! Below(n)
  }

  ghost function WithLeastBelow(g: Graph, n: nat): set<set<nat>> {
    set c | c in ConnectedSets(g) && c * Below(n) != {}
  }

  ghost function ExtensionsWithout(g: Graph, n: nat): set<set<nat>> {
    set u | u in Extensions(g, {n}, Below(n)) && n !in u
  }

  lemma WithLeastMember(g: Graph, n: nat, c: set<nat>)
    requires Valid(g) && Symmetric(g) && n < |g| && n in c
    ensures c in WithLeast(g, n) <==> c == {n} || c - {n} in ExtensionsWithout(g, n)
  {
    var u := c - {n};
    assert c == {n} + u;
    if c <= Below(|g|) {
      ConnectedIffGrows(g, c, n);
    }
    assert u * {n} == {};
    assert c <= Below(|g|) <==> u <= Below(|g|);
    assert c !! Below(n) <==> u !! Below(n);
  }

  lemma WithLeastSize(g: Graph, n: nat)
    requires Valid(g) && Symmetric(g) && n < |g|
    ensures |WithLeast(g, n)| == 1 + |ExtensionsWithout(g, n)|
  {
    var all := ExtensionsWithout(g, n) + {{}};
    forall u | u in all
      ensures u !! {n} && {n} + u in WithLeast(g, n)
    {
      assert ({n} + u) - {n} == u;
      WithLeastMember(g, n, {n} + u);
    }
    forall c | c in WithLeast(g, n)
      ensures {n} <= c && c - {n} in all
    {
      WithLeastMember(g, n, c);
    }
    ShiftedSize(WithLeast(g, n), all, {n});
    assert {} !in ExtensionsWithout(g, n);
  }

  lemma WithLeastStep(g: Graph, n: nat)
    ensures |WithLeastBelow(g, n + 1)| == |WithLeastBelow(g, n)| + |WithLeast(g, n)|
  {
    assert Below(n + 1) == Below(n) + {n};
    forall c | c in ConnectedSets(g)
      ensures c in WithLeastBelow(g, n + 1) <==> c in WithLeastBelow(g, n) || c in WithLeast(g, n)
    {
      assert c * Below(n + 1) == c * Below(n) + c * {n};
      if n in c {
        assert n in c * {n};
      }
    }
    assert WithLeastBelow(g, n + 1) == WithLeastBelow(g, n) + WithLeast(g, n);
    assert WithLeastBelow(g, n) !! WithLeast(g, n);
  }

  lemma WithLeastAll(g: Graph)
    ensures WithLeastBelow(g, |g|) == ConnectedSets(g)
  {
    forall c | c in ConnectedSets(g)
      ensures c * Below(|g|) != {}
    {
      assert c * Below(|g|) == c;
    }
  }

  lemma WithoutLoop(g: Graph, n: nat)
    requires Valid(g) && n < |g|
    ensures ExtensionsWithout(g, n) <= Extensions(g, {n}, Below(n))
    ensures Edge(g, n, n) <==> ExtensionsWithout(g, n) != Extensions(g, {n}, Below(n))
  {
    if Edge(g, n, n) {
      assert n in Neighbors(g, {n});
      assert IsExtension(g, {n}, Below(n), {n});
      assert {n} in Extensions(g, {n}, Below(n));
    }
    forall u | u in Extensions(g, {n}, Below(n)) && n in u
      ensures Edge(g, n, n)
    {
      assert n in u * {n};
      assert n in Neighbors(g, {n});
    }
  }

  /** The number of sets found never falls short of the number of connected sets, and exceeds it
      exactly when some start node has a self-loop. */
  lemma {:induction false} FoundVersusConnected(g: Graph, n: nat)
    requires Valid(g) && Symmetric(g) && n <= |g|
    ensures Found(g, n) >= |WithLeastBelow(g, n)|
    ensures Found(g, n) == |WithLeastBelow(g, n)| <==> forall x | 0 <= x < n :: !Edge(g, x, x)
  {
    if n == 0 {
      assert WithLeastBelow(g, 0) == {};
    } else {
      FoundVersusConnected(g, n - 1);
      WithLeastStep(g, n - 1);
      WithLeastSize(g, n - 1);
      WithoutLoop(g, n - 1);
      SubsetSize(ExtensionsWithout(g, n - 1), Extensions(g, {n - 1}, Below(n - 1)));
      assert (forall x | 0 <= x < n :: !Edge(g, x, x))
        <==> (forall x | 0 <= x < n - 1 :: !Edge(g, x, x)) && !Edge(g, n - 1, n - 1);
    }
  }

  lemma SubsetSize<T>(a: set<T>, b: set<T>)
    requires a <= b
    ensures |a| <= |b|
    ensures |a| == |b| <==> a == b
  {
    assert b == a + (b - a);
    if a != b {
      var y :| y in b - a;
    }
  }

  function CappedAt(n: nat, budget: nat): nat {
    if n <= budget then n else budget + 1
  }

  /** What `countSubgraphs` returns, as a function of the graph and the budget. */
  ghost function CountResult(g: Graph, budget: nat): nat {
    CappedAt(Found(g, |g|), budget)
  }

  /** On undirected graphs the counter is right for every budget exactly when there is no
      self-loop. */
  lemma CountsConnectedSetsIffLoopFree(g: Graph)
    requires Valid(g) && Symmetric(g)
    ensures (forall budget: nat :: CountResult(g, budget) == CappedAt(|ConnectedSets(g)|, budget)) <==> LoopFree(g)
  {
    FoundVersusConnected(g, |g|);
    WithLeastAll(g);
    var n := Found(g, |g|);
    if !LoopFree(g) {
      assert CountResult(g, n) == n != CappedAt(|ConnectedSets(g)|, n);
    }
  }

  /** For one budget, a self-loop goes unnoticed exactly when the budget is exceeded anyway. */
  lemma CountsConnectedSetsIff(g: Graph, budget: nat)
    requires Valid(g) && Symmetric(g)
    ensures CountResult(g, budget) == CappedAt(|ConnectedSets(g)|, budget)
       <==> LoopFree(g) || |ConnectedSets(g)| > budget
  {
    FoundVersusConnected(g, |g|);
    WithLeastAll(g);
  }

  /** A single node with a self-loop is one connected set, but is counted twice. */
  lemma SelfLoopExample()
    ensures var g: Graph := [{0}];
            Valid(g) && Symmetric(g) && |ConnectedSets(g)| == 1 && CountResult(g, 10) == 2
  {
    var g: Graph := [{0}];
    BelowSize(0);
    BelowSize(1);
    assert Below(0) == {} && Below(1) == {0};
    assert Linked(g, {0}, 0, 0) by {
      assert IsPath(g, {0}, [0], 0, 0);
    }
    assert Connected(g, {0});
    forall c | c in ConnectedSets(g)
      ensures c == {0}
    {
      assert c <= {0} && c != {};
    }
    assert ConnectedSets(g) == {{0}};
    assert Found(g, 1) == 2 by {
      assert Extensions(g, {0}, {}) == {{0}} by {
        OnlySubset(g);
      }
      assert Found(g, 0) == 0;
    }
  }

  lemma OnlySubset(g: Graph)
    requires g == [{0}]
    ensures forall u :: u in Extensions(g, {0}, {}) <==> u == {0}
  {
    BelowSize(1);
    assert Below(1) == {0};
    assert Edge(g, 0, 0);
    assert IsExtension(g, {0}, {}, {0});
    forall u | u in Extensions(g, {0}, {})
      ensures u == {0}
    {
      assert u <= {0} && u != {};
    }
  }
}
