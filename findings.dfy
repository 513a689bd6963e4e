/** The lane shift of `resolve_move_lane` (task_board/task_board/schema.py,
    lines 200-207) filters TaskLane rows on their order only, not on their
    board, so moving a lane renumbers the lanes of every other board too.
    Resolvers.MoveLaneAsWritten models the query as written, and the two
    lemmas below state its shift in both directions; Resolvers.MoveLane
    (used by Schema.Store.MoveLane) adds the board filter, and
    Properties.MoveLanePreservesDistinct proves it keeps every board's lane
    orders distinct. */
module Findings {
  import opened Models
  import opened Ordering
  import opened Resolvers

  /** As written, moving a lane later lowers by one the order of every other
      lane, on any board, ranked in [from+1, to]. */
  lemma MoveLaneAsWrittenShiftsEveryBoard(lanes: map<Id, Lane>, id: Id, to: int)
    requires id in lanes && to != 0 && to > lanes[id].order
    ensures var (r, after) := MoveLaneAsWritten(lanes, id, Some(to));
      && r == Ok(lanes[id].(order := to))
      && after.Keys == lanes.Keys
      && after[id] == lanes[id].(order := to)
      && forall k :: k in lanes && k != id ==>
           after[k] == if lanes[k].order - 1 >= lanes[id].order && lanes[k].order <= to
                       then lanes[k].(order := lanes[k].order - 1) else lanes[k]
  {
  }

  /** As written, moving a lane earlier raises by one the order of every
      other lane, on any board, ranked in [to, from-1]. */
  lemma MoveLaneAsWrittenEarlier(lanes: map<Id, Lane>, id: Id, to: int)
    requires id in lanes && to != 0 && to < lanes[id].order
    ensures var (r, after) := MoveLaneAsWritten(lanes, id, Some(to));
      && r == Ok(lanes[id].(order := to))
      && after.Keys == lanes.Keys
      && after[id] == lanes[id].(order := to)
      && forall k :: k in lanes && k != id ==>
           after[k] == if to <= lanes[k].order <= lanes[id].order - 1
                       then lanes[k].(order := lanes[k].order + 1) else lanes[k]
  {
  }

  /** Boards 1 and 2 each hold lanes ranked 1 and 2. Moving board 1's first
      lane to rank 2 also moves board 2's second lane to rank 1, where board
      2's first lane already is. */
  lemma MoveLaneAsWrittenBreaksOtherBoard()
    ensures var lanes := map[1 := Lane(1, 1), 2 := Lane(1, 2), 3 := Lane(2, 1), 4 := Lane(2, 2)];
      var after := MoveLaneAsWritten(lanes, 1, Some(2)).1;
      && LaneOrdersDistinct(lanes)
      && after[3] == Lane(2, 1) && after[4] == Lane(2, 1)
      && !LaneOrdersDistinct(after)
  {
    var lanes := map[1 := Lane(1, 1), 2 := Lane(1, 2), 3 := Lane(2, 1), 4 := Lane(2, 2)];
    var after := MoveLaneAsWritten(lanes, 1, Some(2)).1;
    assert after[3] == Lane(2, 1) && after[4] == Lane(2, 1);
  }

  /** On the same lanes the board-scoped move leaves board 2 alone. */
  lemma MoveLaneKeepsOtherBoard()
    ensures var lanes := map[1 := Lane(1, 1), 2 := Lane(1, 2), 3 := Lane(2, 1), 4 := Lane(2, 2)];
      var after := MoveLane(lanes, 1, Some(2)).1;
      && after == map[1 := Lane(1, 2), 2 := Lane(1, 1), 3 := Lane(2, 1), 4 := Lane(2, 2)]
      && LaneOrdersDistinct(after)
  {
    var lanes := map[1 := Lane(1, 1), 2 := Lane(1, 2), 3 := Lane(2, 1), 4 := Lane(2, 2)];
    var after := MoveLane(lanes, 1, Some(2)).1;
    assert after[1] == Lane(1, 2) && after[2] == Lane(1, 1) && after[3] == Lane(2, 1) && after[4] == Lane(2, 2);
  }

  /** Where all lanes belong to one board the correction changes nothing. */
  lemma MoveLaneAgreesOnOneBoard(lanes: map<Id, Lane>, id: Id, toLaneOrder: Option<int>)
    requires forall a, b :: a in lanes && b in lanes ==> lanes[a].board == lanes[b].board
    ensures MoveLane(lanes, id, toLaneOrder) == MoveLaneAsWritten(lanes, id, toLaneOrder)
  {
    var (r, after) := MoveLane(lanes, id, toLaneOrder);
    var (r', after') := MoveLaneAsWritten(lanes, id, toLaneOrder);
    if id in lanes {
      forall k | k in after
        ensures k in after' && after[k] == after'[k]
      {
        assert lanes[k].board == lanes[id].board;
      }
      assert after == after';
    }
  }
}
