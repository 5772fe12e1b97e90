/**
 Shifting the elements of a range in place, by moving them backward or, for iterators that only go
 forward, by swapping them through the first cells.
 */
module Shift {

  /** Every element that has a target `n` cells further on in the range has been moved there. */
  ghost predicate ShiftedRight<T>(before: seq<T>, after: seq<T>, n: nat) {
    n <= |before| == |after| && after[n..] == before[..|before| - n]
  }

  ghost predicate ShiftedLeft<T>(before: seq<T>, after: seq<T>, n: nat) {
    n <= |before| == |after| && after[..|before| - n] == before[n..]
  }

  /** Moves the cells `first .. last - 1` one by one to the cells from `dest` on. */
  method Move<T>(a: array<T>, first: nat, last: nat, dest: nat) returns (end: nat)
    requires first <= last <= a.Length && dest + (last - first) <= a.Length
    requires dest <= first || last <= dest
    modifies a
    ensures end == dest + (last - first)
    ensures a[..] == old(a[..])[..dest] + old(a[..])[first..last] + old(a[..])[end..]
  {
    ghost var before := a[..];
    end := dest;
    var cursor := first;
    while cursor < last
      invariant first <= cursor <= last && end == dest + (cursor - first)
      invariant a[..dest] == before[..dest] && a[end..] == before[end..]
      invariant a[dest..end] == before[first..cursor]
    {
      assert a[cursor] == before[cursor] by {
        if last <= dest {
          assert a[..dest][cursor] == before[..dest][cursor];
        } else {
          assert a[end..][cursor - end] == before[end..][cursor - end];
        }
      }
      a[end] := a[cursor];
      end := end + 1;
      cursor := cursor + 1;
    }
    assert a[..] == a[..dest] + a[dest..end] + a[end..];
  }

  /** Moves the cells `first .. last - 1` to the cells that end before `dest`, last cell first. */
  method MoveBackward<T>(a: array<T>, first: nat, last: nat, dest: nat) returns (begin: nat)
    requires first <= last <= dest <= a.Length
    modifies a
    ensures begin == dest - (last - first)
    ensures a[..] == old(a[..begin]) + old(a[first..last]) + old(a[dest..])
  {
    ghost var before := a[..];
    begin := dest;
    var cursor := last;
    while first < cursor
      invariant first <= cursor <= last && begin == dest - (last - cursor)
      invariant a[..begin] == before[..begin] && a[dest..] == before[dest..]
      invariant a[begin..dest] == before[cursor..last]
    {
      cursor := cursor - 1;
      begin := begin - 1;
      assert a[cursor] == a[..begin + 1][cursor];
      a[begin] := a[cursor];
    }
    assert a[..] == a[..begin] + a[begin..dest] + a[dest..];
  }

  /** Shifts to the left by `n` and returns the end of the elements that remain. */
  method ShiftLeft<T>(a: array<T>, n: nat) returns (end: nat)
    modifies a
    ensures if 0 < n < a.Length then ShiftedLeft(old(a[..]), a[..], n) && end == a.Length - n
            else a[..] == old(a[..]) && end == 0
  {
    if n == 0 {
      return 0;
    }
    var mid := if n <= a.Length then n else a.Length;
    if mid == a.Length {
      return 0;
    }
    end := Move(a, mid, a.Length, 0);
  }

  /** The branch for bidirectional iterators. */
  method ShiftRightBackward<T>(a: array<T>, n: nat) returns (result: nat)
    modifies a
    ensures if 0 < n < a.Length then ShiftedRight(old(a[..]), a[..], n) && result == n
            else a[..] == old(a[..]) && result == a.Length
    ensures n <= a.Length ==> a[..n] == old(a[..n])
  {
    if n == 0 || n >= a.Length {
      return a.Length;
    }
    result := MoveBackward(a, 0, a.Length - n, a.Length);
  }

  /** The elements before `head - n` are at their targets. The first `n` cells hold the `n` elements
      before `head`, rotated: those of the current round up to `cursor`, and then those of the round
      before. From `head` on, nothing has changed. */
  ghost predicate Rotated<T>(a: seq<T>, before: seq<T>, n: nat, head: nat, cursor: nat) {
    && cursor <= n && n + cursor <= head <= |before| == |a|
    && a[..cursor] == before[head - cursor..head]
    && a[cursor..n] == before[head - n..head - cursor]
    && a[n..head] == before[..head - n]
    && a[head..] == before[head..]
  }

  lemma NextRound<T>(a: seq<T>, before: seq<T>, n: nat, head: nat)
    requires Rotated(a, before, n, head, n)
    ensures Rotated(a, before, n, head, 0)
  {
    assert a[0..n] == a[..n];
  }

  lemma SwapStep<T>(a: seq<T>, b: seq<T>, before: seq<T>, n: nat, head: nat, cursor: nat)
    requires Rotated(a, before, n, head, cursor) && cursor < n && head < |a|
    requires b == a[cursor := a[head]][head := a[cursor]]
    ensures Rotated(b, before, n, head + 1, cursor + 1)
  {
    assert a[head] == a[head..][0] && a[cursor] == a[cursor..n][0];
    assert b[..cursor + 1] == a[..cursor] + [a[head]];
    assert b[cursor + 1..n] == a[cursor..n][1..];
    assert b[n..head + 1] == a[n..head] + [a[cursor]];
    assert b[head + 1..] == a[head..][1..];
  }

  /** The branch for forward iterators: elements travel to their targets through the first `n` cells. */
  method ShiftRightForward<T>(a: array<T>, n: nat) returns (result: nat)
    modifies a
    ensures if 0 < n < a.Length then ShiftedRight(old(a[..]), a[..], n) && result == n
            else a[..] == old(a[..]) && result == a.Length
  {
    var last := a.Length;
    if n == 0 || n >= last {
      return last;
    }
    result := n;
    ghost var before := a[..];
    var destHead, destTail := 0, n;
    while destHead != result
      invariant destHead <= n && destTail == n + destHead <= last
      invariant a[..] == before
    {
      if destTail == last {
        var end := Move(a, 0, destHead, result);
        return;
      }
      destHead := destHead + 1;
      destTail := destTail + 1;
    }
    SwapRounds(a, n, destHead, destTail, before);
  }

  /** Swaps round by round, each round running through the first `n` cells once. */
  method SwapRounds<T>(a: array<T>, n: nat, head: nat, tail: nat, ghost before: seq<T>)
    requires 0 < n && tail == n + head <= a.Length && Rotated(a[..], before, n, head, 0)
    modifies a
    ensures ShiftedRight(before, a[..], n)
  {
    hide Rotated;
    var destHead, destTail := head, tail;
    while true
      invariant destTail == n + destHead <= a.Length && destHead >= head && Rotated(a[..], before, n, destHead, 0)
      decreases a.Length - destTail
    {
      var cursor := 0;
      ghost var start := destTail;
      while cursor != n
        invariant 0 <= cursor <= n && destTail == n + destHead <= a.Length && destTail == start + cursor
        invariant Rotated(a[..], before, n, destHead, cursor)
        decreases n - cursor
      {
        if destTail == a.Length {
          Finish(a, n, destHead, cursor, before);
          return;
        }
        ghost var now := a[..];
        a[cursor], a[destHead] := a[destHead], a[cursor];
        RotatedBounds(now, before, n, destHead, cursor);
        assert a[..] == now[cursor := now[destHead]][destHead := now[cursor]];
        SwapStep(now, a[..], before, n, destHead, cursor);
        destHead := destHead + 1;
        destTail := destTail + 1;
        cursor := cursor + 1;
      }
      NextRound(a[..], before, n, destHead);
    }
  }

  lemma RotatedBounds<T>(a: seq<T>, before: seq<T>, n: nat, head: nat, cursor: nat)
    requires Rotated(a, before, n, head, cursor)
    ensures n + cursor <= head <= |before| == |a|
  {}

  /** Writes what is left in the first cells to the end of the range, in the old order. */
  method Finish<T>(a: array<T>, n: nat, destHead: nat, cursor: nat, ghost before: seq<T>)
    requires 0 < n && n + destHead == a.Length && Rotated(a[..], before, n, destHead, cursor)
    modifies a
    ensures ShiftedRight(before, a[..], n)
  {
    ghost var now := a[..];
    var destHead' := Move(a, cursor, n, destHead);
    ghost var mid := a[..];
    var end := Move(a, 0, cursor, destHead');
    FinishedAt(now, mid, a[..], before, n, destHead, cursor);
  }

  lemma FinishedAt<T>(now: seq<T>, mid: seq<T>, after: seq<T>, before: seq<T>, n: nat, head: nat, cursor: nat)
    requires 0 < n && Rotated(now, before, n, head, cursor) && n + head == |now|
    requires mid == now[..head] + now[cursor..n] + now[head + (n - cursor)..]
    requires after == mid[..head + (n - cursor)] + mid[0..cursor] + mid[|now|..]
    ensures ShiftedRight(before, after, n)
  {
    assert mid[..head + (n - cursor)] == now[..head] + now[cursor..n];
    assert mid[0..cursor] == now[..cursor];
    assert after[n..] == now[n..head] + now[cursor..n] + now[..cursor];
    assert before[..head - n] + before[head - n..head - cursor] + before[head - cursor..head] == before[..head];
  }
}
