/** What the resolvers of task_board/task_board/schema.py promise, proved
    about the functions of module Resolvers (and so, through the methods'
    postconditions, about Schema.Store). */
module Properties {
  import opened Models
  import opened Ordering
  import opened Resolvers

  // ---------------------------------------------------------------------
  // All-or-nothing

  /** Every resolver that reports an error leaves its table as it found it.
      This only gathers in one place the all-or-nothing clause that each
      function of Resolvers states in its own contract. */
  lemma ErrorsWriteNothing(tasks: map<Id, Task>, lanes: map<Id, Lane>, id: Id, newId: Id,
                           lane: Option<Id>, laneId: Id, order: Option<int>)
    ensures MoveLane(lanes, id, order).0.Err? ==> MoveLane(lanes, id, order).1 == lanes
    ensures MoveTask(tasks, lanes, id, lane, order).0.Err? ==> MoveTask(tasks, lanes, id, lane, order).1 == tasks
    ensures CreateTask(tasks, lanes, newId, laneId, order).0.Err? ==> CreateTask(tasks, lanes, newId, laneId, order).1 == tasks
    ensures UpdateTask(tasks, lanes, id, lane, order).0.Err? ==> UpdateTask(tasks, lanes, id, lane, order).1 == tasks
    ensures DeleteTask(tasks, id).0.Err? ==> DeleteTask(tasks, id).1 == tasks
  {
  }

  // ---------------------------------------------------------------------
  // moveLane

  /** Moving a lane to the order it already has returns it and writes nothing. */
  lemma MoveLaneNoOp(lanes: map<Id, Lane>, id: Id)
    requires id in lanes
    ensures MoveLane(lanes, id, Some(lanes[id].order)) == (Ok(lanes[id]), lanes)
  {
  }

  /** An absent or zero destination order is reported as missing and writes
      nothing (unless 0 is the lane's current order, the no-op above). */
  lemma MoveLaneMissingOrder(lanes: map<Id, Lane>, id: Id, toLaneOrder: Option<int>)
    requires id in lanes
    requires toLaneOrder == None || toLaneOrder == Some(0)
    requires toLaneOrder != Some(lanes[id].order)
    ensures MoveLane(lanes, id, toLaneOrder) == (Err(DestinationLaneMissing), lanes)
  {
  }

  /** Moving a lane later: it lands on `to`, the other lanes of its board
      ranked in [from+1, to] have their order lowered by one, and nothing else changes. */
  lemma MoveLaneLater(lanes: map<Id, Lane>, id: Id, to: int)
    requires id in lanes && to != 0 && to > lanes[id].order
    ensures var (r, after) := MoveLane(lanes, id, Some(to));
      var l := lanes[id];
      && r == Ok(l.(order := to))
      && after.Keys == lanes.Keys
      && after[id] == l.(order := to)
      && forall k :: k in lanes && k != id ==>
           after[k] == if lanes[k].board == l.board && l.order + 1 <= lanes[k].order <= to
                       then lanes[k].(order := lanes[k].order - 1) else lanes[k]
  {
  }

  /** Moving a lane earlier: it lands on `to`, the other lanes of its board
      ranked in [to, from-1] have their order raised by one, and nothing else changes. */
  lemma MoveLaneEarlier(lanes: map<Id, Lane>, id: Id, to: int)
    requires id in lanes && to != 0 && to < lanes[id].order
    ensures var (r, after) := MoveLane(lanes, id, Some(to));
      var l := lanes[id];
      && r == Ok(l.(order := to))
      && after.Keys == lanes.Keys
      && after[id] == l.(order := to)
      && forall k :: k in lanes && k != id ==>
           after[k] == if lanes[k].board == l.board && to <= lanes[k].order <= l.order - 1
                       then lanes[k].(order := lanes[k].order + 1) else lanes[k]
  {
  }

  /** A lane move keeps the lane orders of every board pairwise distinct. */
  lemma MoveLanePreservesDistinct(lanes: map<Id, Lane>, id: Id, toLaneOrder: Option<int>)
    requires LaneOrdersDistinct(lanes)
    ensures LaneOrdersDistinct(MoveLane(lanes, id, toLaneOrder).1)
  {
    var (r, after) := MoveLane(lanes, id, toLaneOrder);
    if r.Ok? && after != lanes {
      var l := lanes[id];
      var to := toLaneOrder.value;
      if to > l.order {
        MoveLaneLater(lanes, id, to);
      } else {
        MoveLaneEarlier(lanes, id, to);
      }
      forall a, b | a in after && b in after && a != b && after[a].board == after[b].board
        ensures after[a].order != after[b].order
      {
        if a != id && b != id {
          assert lanes[a].order != lanes[b].order;
        } else if a == id {
          assert lanes[b].order != l.order;
        } else {
          assert lanes[a].order != l.order;
        }
      }
    }
  }

  // ---------------------------------------------------------------------
  // moveTask

  /** Moving a task to its current lane and order returns it and writes nothing. */
  lemma MoveTaskNoOp(tasks: map<Id, Task>, lanes: map<Id, Lane>, id: Id)
    requires id in tasks
    ensures MoveTask(tasks, lanes, id, Some(tasks[id].lane), Some(tasks[id].order)) == (Ok(tasks[id]), tasks)
  {
  }

  /** An absent or zero destination order is reported as missing and writes
      nothing, once the no-op and the destination lane lookup have passed. */
  lemma MoveTaskMissingOrder(tasks: map<Id, Task>, lanes: map<Id, Lane>, id: Id, toLane: Option<Id>, toItemOrder: Option<int>)
    requires id in tasks
    requires toItemOrder == None || toItemOrder == Some(0)
    requires !(toLane == Some(tasks[id].lane) && toItemOrder == Some(tasks[id].order))
    requires toLane.None? || toLane.value == tasks[id].lane || toLane.value in lanes
    ensures MoveTask(tasks, lanes, id, toLane, toItemOrder) == (Err(DestinationItemOrderMissing), tasks)
  {
  }

  /** Moving a task to a lane that does not exist fails and writes nothing. */
  lemma MoveTaskUnknownLane(tasks: map<Id, Task>, lanes: map<Id, Lane>, id: Id, toLane: Id, toItemOrder: Option<int>)
    requires id in tasks && toLane != tasks[id].lane && toLane !in lanes
    ensures MoveTask(tasks, lanes, id, Some(toLane), toItemOrder) == (Err(NotFound), tasks)
  {
  }

  /** Same-lane move later: the task lands on `to`, the other tasks of its
      lane ranked in [from+1, to] have their order lowered by one, nothing else changes. */
  lemma MoveTaskLater(tasks: map<Id, Task>, lanes: map<Id, Lane>, id: Id, toLane: Option<Id>, to: int)
    requires id in tasks && to != 0 && to > tasks[id].order
    requires toLane == None || toLane == Some(tasks[id].lane)
    ensures var (r, after) := MoveTask(tasks, lanes, id, toLane, Some(to));
      var t := tasks[id];
      && r == Ok(t.(order := to))
      && after.Keys == tasks.Keys
      && after[id] == t.(order := to)
      && forall k :: k in tasks && k != id ==>
           after[k] == if tasks[k].lane == t.lane && t.order + 1 <= tasks[k].order <= to
                       then tasks[k].(order := tasks[k].order - 1) else tasks[k]
  {
    var t := tasks[id];
    ReorderMatchesDisplacement(Place(tasks, id, t.lane, to), id, t.lane, t.order, t.lane, to);
  }

  /** Same-lane move earlier: the task lands on `to`, the other tasks of its
      lane ranked in [to, from-1] have their order raised by one, nothing else changes. */
  lemma MoveTaskEarlier(tasks: map<Id, Task>, lanes: map<Id, Lane>, id: Id, toLane: Option<Id>, to: int)
    requires id in tasks && to != 0 && to < tasks[id].order
    requires toLane == None || toLane == Some(tasks[id].lane)
    ensures var (r, after) := MoveTask(tasks, lanes, id, toLane, Some(to));
      var t := tasks[id];
      && r == Ok(t.(order := to))
      && after.Keys == tasks.Keys
      && after[id] == t.(order := to)
      && forall k :: k in tasks && k != id ==>
           after[k] == if tasks[k].lane == t.lane && to <= tasks[k].order <= t.order - 1
                       then tasks[k].(order := tasks[k].order + 1) else tasks[k]
  {
    var t := tasks[id];
    ReorderMatchesDisplacement(Place(tasks, id, t.lane, to), id, t.lane, t.order, t.lane, to);
  }

  /** Cross-lane move: the task lands in `dest` at `to` with its board
      unchanged; the destination lane's tasks at or above `to` have their
      order raised by one, the source lane's tasks at or above the task's old
      order have it lowered by one, and the tasks of every other lane are
      untouched. */
  lemma MoveTaskAcrossLanes(tasks: map<Id, Task>, lanes: map<Id, Lane>, id: Id, dest: Id, to: int)
    requires id in tasks && dest != tasks[id].lane && dest in lanes && to != 0
    ensures var (r, after) := MoveTask(tasks, lanes, id, Some(dest), Some(to));
      var t := tasks[id];
      && r == Ok(Task(t.board, dest, to))
      && after.Keys == tasks.Keys
      && after[id] == Task(t.board, dest, to)
      && forall k :: k in tasks && k != id ==>
           after[k] == if tasks[k].lane == dest && tasks[k].order >= to then tasks[k].(order := tasks[k].order + 1)
                       else if tasks[k].lane == t.lane && tasks[k].order >= t.order then tasks[k].(order := tasks[k].order - 1)
                       else tasks[k]
  {
    var t := tasks[id];
    ReorderMatchesDisplacement(Place(tasks, id, dest, to), id, t.lane, t.order, dest, to);
  }

  /** A cross-lane move takes one task out of the source lane and adds one
      to the destination lane: n - 1 and m + 1. */
  lemma MoveTaskAcrossLanesCounts(tasks: map<Id, Task>, lanes: map<Id, Lane>, id: Id, dest: Id, to: int)
    requires id in tasks && dest != tasks[id].lane && dest in lanes && to != 0
    ensures var after := MoveTask(tasks, lanes, id, Some(dest), Some(to)).1;
      && |LaneMembers(after, tasks[id].lane)| == |LaneMembers(tasks, tasks[id].lane)| - 1
      && |LaneMembers(after, dest)| == |LaneMembers(tasks, dest)| + 1
  {
    var t := tasks[id];
    ReorderLaneMembers(tasks, id, dest, to, t.lane);
    ReorderLaneMembers(tasks, id, dest, to, dest);
    var source := LaneMembers(tasks, t.lane);
    assert id in source;
    assert source == (source - {id}) + {id};
    assert id !in LaneMembers(tasks, dest);
  }

  /** moveTask keeps the task orders of every lane pairwise distinct. */
  lemma MoveTaskPreservesDistinct(tasks: map<Id, Task>, lanes: map<Id, Lane>, id: Id, toLane: Option<Id>, toItemOrder: Option<int>)
    requires TaskOrdersDistinct(tasks)
    ensures TaskOrdersDistinct(MoveTask(tasks, lanes, id, toLane, toItemOrder).1)
  {
    var (r, after) := MoveTask(tasks, lanes, id, toLane, toItemOrder);
    if r.Ok? && after != tasks {
      ReorderPreservesDistinct(tasks, id, r.value.lane, r.value.order);
    }
  }

  /** The task's board is never rewritten on a move, so from a consistent
      state the move stays consistent exactly when the destination lane is on
      the task's own board. */
  lemma MoveTaskBoardConsistency(tasks: map<Id, Task>, lanes: map<Id, Lane>, id: Id, toLane: Option<Id>, toItemOrder: Option<int>)
    requires id in tasks && BoardConsistent(tasks, lanes)
    ensures var (r, after) := MoveTask(tasks, lanes, id, toLane, toItemOrder);
      r.Ok? ==> && r.value.board == tasks[id].board
                && r.value.lane in lanes
                && (BoardConsistent(after, lanes) <==> lanes[r.value.lane].board == tasks[id].board)
  {
    var (r, after) := MoveTask(tasks, lanes, id, toLane, toItemOrder);
    if r.Ok? && after != tasks {
      var t := tasks[id];
      ReorderMatchesDisplacement(Place(tasks, id, r.value.lane, r.value.order), id, t.lane, t.order, r.value.lane, r.value.order);
      assert after[id] == r.value;
      assert forall k :: k in after && k != id ==> after[k].lane == tasks[k].lane && after[k].board == tasks[k].board;
      if BoardConsistent(after, lanes) {
        assert lanes[after[id].lane].board == after[id].board;
      }
    }
  }

  // ---------------------------------------------------------------------
  // createTask

  /** Without an order, a task created in a lane that has tasks gets one more
      than the lane's largest order, takes its board from the lane, and no
      other task changes. */
  lemma CreateTaskAppends(tasks: map<Id, Task>, lanes: map<Id, Lane>, newId: Id, laneId: Id, order: Option<int>)
    requires laneId in lanes && !IsGiven(order) && newId !in tasks
    requires LaneMembers(tasks, laneId) != {}
    ensures var (r, after) := CreateTask(tasks, lanes, newId, laneId, order);
      && r.Ok?
      && r.value.board == lanes[laneId].board && r.value.lane == laneId
      && (forall k :: k in tasks && tasks[k].lane == laneId ==> tasks[k].order < r.value.order)
      && (exists k :: k in tasks && tasks[k].lane == laneId && tasks[k].order == r.value.order - 1)
      && after == tasks[newId := r.value]
  {
    var k :| k in LaneMembers(tasks, laneId);
    var m := MaxOrder(tasks, laneId);
    assert tasks[k].order in OrdersIn(tasks, laneId);
    MaxOrderCharacterized(tasks, laneId, m);
  }

  /** Without an order, creating a task in a lane that has none fails (the
      aggregate is null) and nothing is saved. */
  lemma CreateTaskInEmptyLaneFails(tasks: map<Id, Task>, lanes: map<Id, Lane>, newId: Id, laneId: Id, order: Option<int>)
    requires laneId in lanes && !IsGiven(order)
    requires LaneMembers(tasks, laneId) == {}
    ensures CreateTask(tasks, lanes, newId, laneId, order) == (Err(EmptyLaneAggregate), tasks)
  {
    forall k | k in tasks
      ensures tasks[k].lane != laneId
    {
      assert k !in LaneMembers(tasks, laneId);
    }
    MaxOrderCharacterized(tasks, laneId, None);
  }

  /** With a non-zero order, the task is inserted at it and every other task
      of the lane at or above it has its order raised by one; the rest is untouched. */
  lemma CreateTaskAtOrder(tasks: map<Id, Task>, lanes: map<Id, Lane>, newId: Id, laneId: Id, o: int)
    requires laneId in lanes && o != 0 && newId !in tasks
    ensures var (r, after) := CreateTask(tasks, lanes, newId, laneId, Some(o));
      && r == Ok(Task(lanes[laneId].board, laneId, o))
      && after.Keys == tasks.Keys + {newId}
      && after[newId] == r.value
      && forall k :: k in tasks ==>
           after[k] == if tasks[k].lane == laneId && tasks[k].order >= o
                       then tasks[k].(order := tasks[k].order + 1) else tasks[k]
  {
  }

  /** createTask keeps the task orders of every lane pairwise distinct. */
  lemma CreateTaskPreservesDistinct(tasks: map<Id, Task>, lanes: map<Id, Lane>, newId: Id, laneId: Id, order: Option<int>)
    requires TaskOrdersDistinct(tasks) && newId !in tasks
    ensures TaskOrdersDistinct(CreateTask(tasks, lanes, newId, laneId, order).1)
  {
    var (r, after) := CreateTask(tasks, lanes, newId, laneId, order);
    if r.Ok? {
      if IsGiven(order) {
        CreateTaskAtOrder(tasks, lanes, newId, laneId, order.value);
        forall a, b | a in after && b in after && a != b && after[a].lane == after[b].lane
          ensures after[a].order != after[b].order
        {
          if a != newId && b != newId {
            assert tasks[a].order != tasks[b].order;
          }
        }
      } else {
        MaxOrderCharacterized(tasks, laneId, MaxOrder(tasks, laneId));
        var k :| k in tasks && tasks[k].lane == laneId && tasks[k].order == MaxOrder(tasks, laneId).value;
        assert k in LaneMembers(tasks, laneId);
        CreateTaskAppends(tasks, lanes, newId, laneId, order);
      }
    }
  }

  /** A created task's board is its lane's board, so creation keeps board consistency. */
  lemma CreateTaskBoardConsistency(tasks: map<Id, Task>, lanes: map<Id, Lane>, newId: Id, laneId: Id, order: Option<int>)
    requires BoardConsistent(tasks, lanes) && newId !in tasks
    ensures BoardConsistent(CreateTask(tasks, lanes, newId, laneId, order).1, lanes)
  {
    if laneId in lanes && IsGiven(order) {
      CreateTaskAtOrder(tasks, lanes, newId, laneId, order.value);
    }
  }

  // ---------------------------------------------------------------------
  // updateTask

  /** Changing only the lane appends the task after the destination lane's
      largest order; the destination lane's tasks stay put and the source
      lane closes the gap. */
  lemma UpdateTaskLaneAppends(tasks: map<Id, Task>, lanes: map<Id, Lane>, id: Id, dest: Id, order: Option<int>)
    requires id in tasks && dest != tasks[id].lane && dest in lanes && !IsGiven(order)
    requires LaneMembers(tasks, dest) != {}
    ensures var (r, after) := UpdateTask(tasks, lanes, id, Some(dest), order);
      var t := tasks[id];
      && r.Ok? && r.value.board == t.board && r.value.lane == dest
      && (forall k :: k in tasks && tasks[k].lane == dest ==> tasks[k].order < r.value.order)
      && (exists k :: k in tasks && tasks[k].lane == dest && tasks[k].order == r.value.order - 1)
      && after.Keys == tasks.Keys
      && after[id] == r.value
      && forall k :: k in tasks && k != id ==>
           after[k] == if tasks[k].lane == t.lane && tasks[k].order >= t.order
                       then tasks[k].(order := tasks[k].order - 1) else tasks[k]
  {
    var t := tasks[id];
    var k :| k in LaneMembers(tasks, dest);
    var m := MaxOrder(tasks, dest);
    assert tasks[k].order in OrdersIn(tasks, dest);
    MaxOrderCharacterized(tasks, dest, m);
    UpdateTaskAppendsAfter(tasks, lanes, id, dest, order, m.value);
  }

  /** The step of UpdateTaskLaneAppends past the aggregate: appending after
      `max` shifts nothing in the destination lane. */
  lemma UpdateTaskAppendsAfter(tasks: map<Id, Task>, lanes: map<Id, Lane>, id: Id, dest: Id, order: Option<int>, max: int)
    requires id in tasks && dest != tasks[id].lane && dest in lanes && !IsGiven(order)
    requires MaxOrder(tasks, dest) == Some(max)
    requires forall k :: k in tasks && tasks[k].lane == dest ==> tasks[k].order <= max
    ensures var (r, after) := UpdateTask(tasks, lanes, id, Some(dest), order);
      var t := tasks[id];
      && r == Ok(Task(t.board, dest, max + 1))
      && after.Keys == tasks.Keys
      && after[id] == r.value
      && forall k :: k in tasks && k != id ==>
           after[k] == if tasks[k].lane == t.lane && tasks[k].order >= t.order
                       then tasks[k].(order := tasks[k].order - 1) else tasks[k]
  {
    var t := tasks[id];
    var placed := Place(tasks, id, dest, max + 1);
    UpdateTaskSaves(tasks, lanes, id, Some(dest), order, dest, max + 1);
    ReorderMatchesDisplacement(placed, id, t.lane, t.order, dest, max + 1);
  }

  /** Changing only the lane to one without tasks fails and writes nothing. */
  lemma UpdateTaskToEmptyLaneFails(tasks: map<Id, Task>, lanes: map<Id, Lane>, id: Id, dest: Id, order: Option<int>)
    requires id in tasks && dest != tasks[id].lane && dest in lanes && !IsGiven(order)
    requires LaneMembers(tasks, dest) == {}
    ensures UpdateTask(tasks, lanes, id, Some(dest), order) == (Err(EmptyLaneAggregate), tasks)
  {
    forall k | k in tasks
      ensures tasks[k].lane != dest
    {
      assert k !in LaneMembers(tasks, dest);
    }
    MaxOrderCharacterized(tasks, dest, None);
  }

  /** When neither the lane nor the order changes, no sibling is shifted and
      the task is returned as it was. */
  lemma UpdateTaskWithoutMoveWritesNothing(tasks: map<Id, Task>, lanes: map<Id, Lane>, id: Id, laneId: Option<Id>, order: Option<int>)
    requires id in tasks
    requires laneId == None || laneId == Some(tasks[id].lane)
    requires !IsGiven(order) || order.value == tasks[id].order
    ensures UpdateTask(tasks, lanes, id, laneId, order) == (Ok(tasks[id]), tasks)
  {
    assert Place(tasks, id, tasks[id].lane, tasks[id].order) == tasks;
  }

  /** A re-rank within the lane is the same shift as moveTask's. */
  lemma UpdateTaskOrderMatchesMove(tasks: map<Id, Task>, lanes: map<Id, Lane>, id: Id, laneId: Option<Id>, o: int)
    requires id in tasks && o != 0
    ensures UpdateTask(tasks, lanes, id, laneId, Some(o)) == MoveTask(tasks, lanes, id, laneId, Some(o))
  {
    var t := tasks[id];
    if o == t.order {
      assert Place(tasks, id, t.lane, o) == tasks;
      ReorderMatchesDisplacement(tasks, id, t.lane, t.order, t.lane, t.order);
      assert Reorder(tasks, id, t.lane, t.order, t.lane, t.order) == tasks;
    }
  }

  /** updateTask keeps the task orders of every lane pairwise distinct. */
  lemma UpdateTaskPreservesDistinct(tasks: map<Id, Task>, lanes: map<Id, Lane>, id: Id, laneId: Option<Id>, order: Option<int>)
    requires TaskOrdersDistinct(tasks)
    ensures TaskOrdersDistinct(UpdateTask(tasks, lanes, id, laneId, order).1)
  {
    var (r, after) := UpdateTask(tasks, lanes, id, laneId, order);
    if r.Ok? {
      var t := tasks[id];
      if t.lane != r.value.lane || t.order != r.value.order {
        ReorderPreservesDistinct(tasks, id, r.value.lane, r.value.order);
      } else {
        assert after == tasks;
      }
    }
  }

  // ---------------------------------------------------------------------
  // deleteTask

  /** Deleting a task leaves the others' orders (and their distinctness and
      board consistency) as they were; the gap is not closed. */
  lemma DeleteTaskKeepsInvariants(tasks: map<Id, Task>, lanes: map<Id, Lane>, id: Id)
    requires TaskOrdersDistinct(tasks) && BoardConsistent(tasks, lanes)
    ensures var (r, after) := DeleteTask(tasks, id);
      && (r.Ok? <==> id in tasks)
      && after.Keys == tasks.Keys - {id}
      && (forall k :: k in after ==> after[k] == tasks[k])
      && TaskOrdersDistinct(after) && BoardConsistent(after, lanes)
  {
  }
}
