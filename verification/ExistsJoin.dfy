/**
 The lazy EXISTS join: a merge of two sorted inputs that arrive in blocks, where undefined values
 come first and match everything.
 */
module ExistsJoin {
  import opened Tables

  ghost predicate Sorted(ids: seq<Id>) {
    forall i, j | 0 <= i < j < |ids| :: ids[i] <= ids[j]
  }

  /** Some right row is equal, or one of the two sides is undefined. */
  ghost predicate Exists(id: Id, right: seq<Id>) {
    exists r :: r in right && (r == id || r == UNDEF || id == UNDEF)
  }

  ghost predicate Answers(result: seq<bool>, left: seq<Id>, right: seq<Id>) {
    && |result| == |left|
    && forall i | 0 <= i < |left| :: result[i] <==> Exists(left[i], right)
  }

  datatype FastForwardState = Unknown | Yes | No

  /** A block and a position in it, as a position in all rows. */
  lemma BlockRow(blocks: seq<seq<Id>>, b: nat, i: nat)
    requires b < |blocks| && i < |blocks[b]|
    ensures |Concat(blocks[..b])| + i < |Concat(blocks)|
    ensures Concat(blocks)[|Concat(blocks[..b])| + i] == blocks[b][i]
    ensures |Concat(blocks[..b + 1])| == |Concat(blocks[..b])| + |blocks[b]|
  {
    assert blocks[..b + 1] == blocks[..b] + [blocks[b]];
    ConcatSnoc(blocks[..b], blocks[b]);
    assert blocks == blocks[..b + 1] + blocks[b + 1..];
    ConcatAppend(blocks[..b + 1], blocks[b + 1..]);
  }

  lemma BlockBound(blocks: seq<seq<Id>>, b: nat)
    requires b <= |blocks|
    ensures |Concat(blocks[..b])| <= |Concat(blocks)|
    ensures b < |blocks| ==> |Concat(blocks[..b + 1])| == |Concat(blocks[..b])| + |blocks[b]|
    ensures blocks[..|blocks|] == blocks
  {
    assert blocks == blocks[..b] + blocks[b..];
    ConcatAppend(blocks[..b], blocks[b..]);
    if b < |blocks| {
      assert blocks[..b + 1] == blocks[..b] + [blocks[b]];
      ConcatSnoc(blocks[..b], blocks[b]);
    }
  }

  class LazyExistsJoinImpl {
    const leftBlocks: seq<seq<Id>>
    const rightBlocks: seq<seq<Id>>
    var leftPulled: nat
    var rightPulled: nat
    var currentRight: Option<seq<Id>>
    var currentRightIndex: nat
    var allRowsFromLeftExist: FastForwardState
    /** The largest left id compared so far. */
    ghost var lastLeft: Id

    ghost function Right(): seq<Id> {
      Concat(rightBlocks)
    }

    ghost function Left(): seq<Id> {
      Concat(leftBlocks)
    }

    /** The number of right rows that the cursor has passed. */
    ghost function Cursor(): nat
      reads this
      requires currentRight.Some? ==> 0 < rightPulled <= |rightBlocks|
      requires currentRight.None? ==> rightPulled <= |rightBlocks|
    {
      match currentRight
      case Some(_) => |Concat(rightBlocks[..rightPulled - 1])| + currentRightIndex
      case None => |Concat(rightBlocks[..rightPulled])|
    }

    /** The right side: where the cursor is, and that all passed rows lie below the last left id. */
    ghost predicate RightValid()
      reads this
    {
      && Sorted(Right())
      && rightPulled <= |rightBlocks|
      && (currentRight.Some? ==>
            0 < rightPulled && currentRight.value == rightBlocks[rightPulled - 1] && currentRightIndex < |currentRight.value|)
      && (forall i | 0 <= i < Cursor() && i < |Right()| :: Right()[i] < lastLeft)
    }

    /** The cursor is at the end exactly if there is no current block. */
    ghost predicate Started()
      reads this
    {
      && RightValid()
      && (currentRight.None? ==> rightPulled == |rightBlocks|)
    }

    ghost predicate Valid()
      reads this
    {
      && RightValid()
      && Sorted(Left()) && leftPulled <= |leftBlocks|
      && (forall j | |Concat(leftBlocks[..leftPulled])| <= j < |Left()| :: lastLeft <= Left()[j])
      && match allRowsFromLeftExist
         case Unknown => (currentRight.None? && rightPulled == 0)
                         || (currentRight.Some? && UNDEF !in Right())
         case Yes => UNDEF in Right()
         case No => currentRight.None? && rightPulled == |rightBlocks| && UNDEF !in Right()
    }

    constructor (leftBlocks: seq<seq<Id>>, rightBlocks: seq<seq<Id>>)
      requires Sorted(Concat(leftBlocks)) && Sorted(Concat(rightBlocks))
      ensures Valid() && leftPulled == 0
      ensures this.leftBlocks == leftBlocks && this.rightBlocks == rightBlocks
    {
      this.leftBlocks, this.rightBlocks := leftBlocks, rightBlocks;
      leftPulled, rightPulled, currentRight, currentRightIndex := 0, 0, None, 0;
      allRowsFromLeftExist, lastLeft := Unknown, UNDEF;
      new;
      assert rightBlocks[..0] == [];
    }

    /** Fetches the next right block that is not empty. */
    method FetchNextRightBlock()
      requires rightPulled <= |rightBlocks|
      modifies this`rightPulled, this`currentRight
      ensures old(rightPulled) <= rightPulled <= |rightBlocks|
      ensures currentRight.Some? ==> 0 < rightPulled && currentRight.value == rightBlocks[rightPulled - 1] != []
      ensures currentRight.None? ==> rightPulled == |rightBlocks|
      ensures |Concat(rightBlocks[..if currentRight.Some? then rightPulled - 1 else rightPulled])|
           == old(|Concat(rightBlocks[..rightPulled])|)
    {
      while true
        invariant old(rightPulled) <= rightPulled <= |rightBlocks|
        invariant |Concat(rightBlocks[..rightPulled])| == old(|Concat(rightBlocks[..rightPulled])|)
        decreases |rightBlocks| - rightPulled
      {
        if rightPulled == |rightBlocks| {
          currentRight := None;
          break;
        }
        BlockBound(rightBlocks, rightPulled);
        currentRight := Some(rightBlocks[rightPulled]);
        rightPulled := rightPulled + 1;
        if currentRight.value != [] {
          break;
        }
      }
    }

    /** Moves the cursor by exactly one row. */
    method IncrementToNextRow()
      requires Started() && currentRight.Some? && currentRight.value[currentRightIndex] < lastLeft
      modifies this`rightPulled, this`currentRight, this`currentRightIndex, this`allRowsFromLeftExist
      ensures Started() && Cursor() == old(Cursor()) + 1
      ensures currentRight.None? ==> allRowsFromLeftExist == No
      ensures currentRight.Some? ==> allRowsFromLeftExist == old(allRowsFromLeftExist)
    {
      BlockRow(rightBlocks, rightPulled - 1, currentRightIndex);
      currentRightIndex := currentRightIndex + 1;
      if currentRightIndex == |currentRight.value| {
        FetchNextRightBlock();
        currentRightIndex := 0;
        if currentRight.None? {
          allRowsFromLeftExist := No;
        }
      }
    }

    /** Whether the id has a match; the cursor moves past right rows that are too small. */
    method HasMatch(id: Id) returns (found: bool)
      requires Started() && UNDEF !in Right() && lastLeft <= id
      requires allRowsFromLeftExist == if currentRight.Some? then Unknown else No
      modifies this`rightPulled, this`currentRight, this`currentRightIndex, this`allRowsFromLeftExist, this`lastLeft
      ensures Started() && lastLeft == id
      ensures allRowsFromLeftExist == if currentRight.Some? then Unknown else No
      ensures old(Cursor()) <= Cursor() <= |Right()|
      ensures found <==> Exists(id, Right())
    {
      hide Concat;
      CursorInRange();
      if id == UNDEF {
        assert |Right()| > 0 ==> UNDEF <= Right()[0];
        if currentRight.Some? {
          assert Right()[Cursor()] in Right();
        }
        lastLeft := id;
        return currentRight.Some?;
      }
      lastLeft := id;
      while currentRight.Some?
        invariant Started() && lastLeft == id && old(Cursor()) <= Cursor() <= |Right()|
        invariant allRowsFromLeftExist == if currentRight.Some? then Unknown else No
        decreases |Right()| - Cursor()
      {
        CursorInRange();
        var right := currentRight.value[currentRightIndex];
        if right == id {
          assert Right()[Cursor()] in Right();
          return true;
        }
        if right > id {
          return false;
        }
        IncrementToNextRow();
        CursorInRange();
      }
      CursorInRange();
      return false;
    }

    /** The cursor points at the current row, or behind the last one. */
    lemma CursorInRange()
      requires Started()
      ensures currentRight.Some? ==> Cursor() < |Right()| && Right()[Cursor()] == currentRight.value[currentRightIndex]
      ensures currentRight.None? ==> Cursor() == |Right()|
    {
      if currentRight.Some? {
        BlockRow(rightBlocks, rightPulled - 1, currentRightIndex);
      } else {
        BlockBound(rightBlocks, rightPulled);
      }
    }

    /** The next block of the left side, with the answer for each of its rows. */
    method Get() returns (result: Option<seq<bool>>)
      requires Valid()
      modifies this
      ensures Valid()
      ensures result.Some? <==> old(leftPulled) < |leftBlocks|
      ensures leftPulled == old(leftPulled) + if result.Some? then 1 else 0
      ensures result.Some? ==> Answers(result.value, leftBlocks[old(leftPulled)], Right())
      ensures old(Cursor()) <= Cursor() <= |Right()|
    {
      hide Concat;
      BlockBound(rightBlocks, rightPulled);
      BlockBound(leftBlocks, leftPulled);
      if currentRight.Some? {
        CursorInRange();
      }
      if currentRight.None? && allRowsFromLeftExist == Unknown {
        Start();
      }
      if leftPulled == |leftBlocks| {
        return None;
      }
      var column := leftBlocks[leftPulled];
      var output: seq<bool>;
      if allRowsFromLeftExist != Unknown {
        output := FastForward(column);
      } else {
        output := MatchColumn(column);
      }
      leftPulled := leftPulled + 1;
      result := Some(output);
    }

    /** Compares one left block row by row. */
    method MatchColumn(column: seq<Id>) returns (output: seq<bool>)
      requires Valid() && currentRight.Some? && allRowsFromLeftExist == Unknown
      requires leftPulled < |leftBlocks| && column == leftBlocks[leftPulled]
      modifies this`rightPulled, this`currentRight, this`currentRightIndex, this`allRowsFromLeftExist, this`lastLeft
      ensures Answers(output, column, Right())
      ensures Started() && UNDEF !in Right()
      ensures allRowsFromLeftExist == if currentRight.Some? then Unknown else No
      ensures forall j | |Concat(leftBlocks[..leftPulled + 1])| <= j < |Left()| :: lastLeft <= Left()[j]
      ensures old(Cursor()) <= Cursor() <= |Right()|
    {
      hide Concat;
      CursorInRange();
      output := [];
      for rowIndex := 0 to |column|
        invariant Started() && UNDEF !in Right()
        invariant allRowsFromLeftExist == if currentRight.Some? then Unknown else No
        invariant old(Cursor()) <= Cursor() <= |Right()|
        invariant forall j | |Concat(leftBlocks[..leftPulled])| + rowIndex <= j < |Left()| :: lastLeft <= Left()[j]
        invariant Answers(output, column[..rowIndex], Right())
      {
        BlockRow(leftBlocks, leftPulled, rowIndex);
        var found := HasMatch(column[rowIndex]);
        output := output + [found];
      }
      BlockBound(leftBlocks, leftPulled);
      assert column[..|column|] == column;
    }

    /** Fetches the first right block and decides whether everything or nothing matches. */
    method Start()
      requires Valid() && currentRight.None? && allRowsFromLeftExist == Unknown
      modifies this`rightPulled, this`currentRight, this`currentRightIndex, this`allRowsFromLeftExist
      ensures Valid() && (allRowsFromLeftExist == Unknown ==> currentRight.Some?)
      ensures old(Cursor()) <= Cursor() <= |Right()|
    {
      currentRightIndex := 0;
      assert rightBlocks[..0] == [];
      FetchNextRightBlock();
      CursorInRange();
      if currentRight.Some? {
        if currentRight.value[0] == UNDEF {
          assert Right()[0] in Right();
          allRowsFromLeftExist := Yes;
        }
      } else {
        allRowsFromLeftExist := No;
      }
    }

    /** All rows match, or none of them does. */
    method FastForward(column: seq<Id>) returns (output: seq<bool>)
      requires Valid() && allRowsFromLeftExist != Unknown && leftPulled < |leftBlocks| && column == leftBlocks[leftPulled]
      ensures Answers(output, column, Right())
    {
      var all := allRowsFromLeftExist == Yes;
      output := seq(|column|, i => all);
      forall i | 0 <= i < |column|
        ensures output[i] <==> Exists(column[i], Right())
      {
        BlockRow(leftBlocks, leftPulled, i);
        if all {
          assert UNDEF in Right();
        } else {
          CursorInRange();
        }
      }
    }
  }

  /** Consumes the whole left side: for every way of cutting the two sorted inputs into blocks, each
      left row gets the right answer. */
  method ComputeExists(leftBlocks: seq<seq<Id>>, rightBlocks: seq<seq<Id>>) returns (columns: seq<seq<bool>>)
    requires Sorted(Concat(leftBlocks)) && Sorted(Concat(rightBlocks))
    ensures |columns| == |leftBlocks|
    ensures Answers(Concat(columns), Concat(leftBlocks), Concat(rightBlocks))
  {
    var impl := new LazyExistsJoinImpl(leftBlocks, rightBlocks);
    columns := [];
    while true
      invariant impl.Valid() && fresh(impl) && |columns| == impl.leftPulled
      invariant Answers(Concat(columns), Concat(leftBlocks[..|columns|]), Concat(rightBlocks))
      decreases |leftBlocks| - |columns|
    {
      var column := impl.Get();
      if column.None? {
        break;
      }
      assert leftBlocks[..|columns| + 1] == leftBlocks[..|columns|] + [leftBlocks[|columns|]];
      ConcatSnoc(leftBlocks[..|columns|], leftBlocks[|columns|]);
      ConcatSnoc(columns, column.value);
      columns := columns + [column.value];
    }
    assert leftBlocks[..|leftBlocks|] == leftBlocks;
  }
}
