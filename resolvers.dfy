/** The mutation resolvers of task_board/task_board/schema.py as functions
    from the rows they read to the result they return and the rows they
    leave behind. Every resolver is all-or-nothing: on an error the tables
    are returned unchanged. These are the specifications that the methods
    of Schema.Store are proved against. */
module Resolvers {
  import opened Models
  import opened Ordering

  /** `resolve_move_lane`, with the sibling shift either restricted to the
      moved lane's board (`boardScoped`) or run over the lanes of every
      board, as the source's query is written. */
  ghost function MoveLaneWith(lanes: map<Id, Lane>, id: Id, toLaneOrder: Option<int>, boardScoped: bool): (Result<Lane>, map<Id, Lane>)
  {
    if id !in lanes then (Err(NotFound), lanes)
    else
      var lane := lanes[id];
      if toLaneOrder == Some(lane.order) then (Ok(lane), lanes)
      else if !IsGiven(toLaneOrder) then (Err(DestinationLaneMissing), lanes)
      else
        var from := lane.order;
        var to := toLaneOrder.value;
        var moved := lane.(order := to);
        var saved := lanes[id := moved];
        var scope := if boardScoped then Some(lane.board) else None;
        (Ok(moved),
         if to - from > 0 then ShiftLanes(saved, scope, Between(from + 1, to), id, -1)
         else ShiftLanes(saved, scope, Between(to, from - 1), id, 1))
  }

  /** `moveLane` with the shift confined to the lane's own board. It succeeds
      exactly for an existing lane and either its current order or a
      non-zero one, returns the lane as saved at that order, and on an error
      writes nothing. */
  ghost function MoveLane(lanes: map<Id, Lane>, id: Id, toLaneOrder: Option<int>): (r: (Result<Lane>, map<Id, Lane>))
    ensures r.1.Keys == lanes.Keys
    ensures r.0.Err? ==> r.1 == lanes
    ensures r.0.Ok? <==> id in lanes && (toLaneOrder == Some(lanes[id].order) || IsGiven(toLaneOrder))
    ensures r.0.Ok? ==> r.0.value == lanes[id].(order := toLaneOrder.value) && r.1[id] == r.0.value
  {
    MoveLaneWith(lanes, id, toLaneOrder, true)
  }

  /** `moveLane` exactly as the source writes it: no board filter on the
      shift. Success, result and error cases are those of MoveLane; only the
      siblings shifted differ. */
  ghost function MoveLaneAsWritten(lanes: map<Id, Lane>, id: Id, toLaneOrder: Option<int>): (r: (Result<Lane>, map<Id, Lane>))
    ensures r.1.Keys == lanes.Keys
    ensures r.0.Err? ==> r.1 == lanes
    ensures r.0.Ok? <==> id in lanes && (toLaneOrder == Some(lanes[id].order) || IsGiven(toLaneOrder))
    ensures r.0.Ok? ==> r.0.value == lanes[id].(order := toLaneOrder.value) && r.1[id] == r.0.value
  {
    MoveLaneWith(lanes, id, toLaneOrder, false)
  }

  /** `resolve_move_task`: `toLane` may be left out (stay in the current
      lane); `toItemOrder` must be given and non-zero unless the call is the
      no-op "same lane, same order". */
  ghost function MoveTask(tasks: map<Id, Task>, lanes: map<Id, Lane>, id: Id, toLane: Option<Id>, toItemOrder: Option<int>): (r: (Result<Task>, map<Id, Task>))
    ensures r.1.Keys == tasks.Keys
    ensures r.0.Err? ==> r.1 == tasks
    ensures r.0.Ok? <==>
      (id in tasks &&
       ((toLane == Some(tasks[id].lane) && toItemOrder == Some(tasks[id].order)) ||
        ((toLane.None? || toLane.value == tasks[id].lane || toLane.value in lanes) && IsGiven(toItemOrder))))
    ensures r.0.Ok? ==>
      && r.1[id] == r.0.value
      && r.0.value == Task(tasks[id].board, if toLane.Some? then toLane.value else tasks[id].lane, toItemOrder.value)
  {
    if id !in tasks then (Err(NotFound), tasks)
    else
      var task := tasks[id];
      if toLane == Some(task.lane) && toItemOrder == Some(task.order) then (Ok(task), tasks)
      else if toLane.Some? && toLane.value != task.lane && toLane.value !in lanes then (Err(NotFound), tasks)
      else if !IsGiven(toItemOrder) then (Err(DestinationItemOrderMissing), tasks)
      else
        var dest := if toLane.Some? then toLane.value else task.lane;
        var to := toItemOrder.value;
        var saved := Place(tasks, id, dest, to);
        (Ok(saved[id]), Reorder(saved, id, task.lane, task.order, dest, to))
  }

  /** `resolve_create_task`, inserting the new row under the fresh key `newId`.
      With a non-zero `order` the task goes there and the lane's tasks at or
      above it have their order raised by one; otherwise it is appended after
      the lane's largest order, which fails on a lane without tasks. */
  ghost function CreateTask(tasks: map<Id, Task>, lanes: map<Id, Lane>, newId: Id, laneId: Id, order: Option<int>): (r: (Result<Task>, map<Id, Task>))
    ensures r.0.Err? ==> r.1 == tasks
    ensures r.0.Ok? <==> laneId in lanes && (IsGiven(order) || MaxOrder(tasks, laneId).Some?)
    ensures r.0.Ok? ==>
      && r.1.Keys == tasks.Keys + {newId}
      && r.1[newId] == r.0.value
      && r.0.value == Task(lanes[laneId].board, laneId,
                           if IsGiven(order) then order.value else MaxOrder(tasks, laneId).value + 1)
  {
    if laneId !in lanes then (Err(NotFound), tasks)
    else
      var board := lanes[laneId].board;
      if IsGiven(order) then
        var task := Task(board, laneId, order.value);
        (Ok(task), ShiftTasks(tasks[newId := task], laneId, AtLeast(order.value), newId, 1))
      else
        match MaxOrder(tasks, laneId)
        case None => (Err(EmptyLaneAggregate), tasks)
        case Some(m) =>
          var task := Task(board, laneId, m + 1);
          (Ok(task), tasks[newId := task])
  }

  /** The lane and order part of `resolve_update_task`. A different `laneId`
      reparents the task (appending it after the destination's largest order
      when no non-zero `order` is given); a non-zero `order` re-ranks it; the
      sibling shift runs only when the lane or the order changed. */
  ghost function UpdateTask(tasks: map<Id, Task>, lanes: map<Id, Lane>, id: Id, laneId: Option<Id>, order: Option<int>): (r: (Result<Task>, map<Id, Task>))
    ensures r.1.Keys == tasks.Keys
    ensures r.0.Err? ==> r.1 == tasks
    ensures r.0.Ok? <==>
      (id in tasks &&
       (laneId.None? || laneId.value == tasks[id].lane ||
        (laneId.value in lanes && (IsGiven(order) || MaxOrder(tasks, laneId.value).Some?))))
    ensures r.0.Ok? ==>
      && r.1[id] == r.0.value
      && r.0.value.board == tasks[id].board
      && r.0.value.lane == (if laneId.Some? then laneId.value else tasks[id].lane)
  {
    if id !in tasks then (Err(NotFound), tasks)
    else
      var task := tasks[id];
      var laneChange := laneId.Some? && laneId.value != task.lane;
      if laneChange && laneId.value !in lanes then (Err(NotFound), tasks)
      else if laneChange && !IsGiven(order) && MaxOrder(tasks, laneId.value).None? then (Err(EmptyLaneAggregate), tasks)
      else
        var toLane := if laneChange then laneId.value else task.lane;
        var toOrder :=
          if IsGiven(order) then order.value
          else if laneChange then MaxOrder(tasks, toLane).value + 1
          else task.order;
        var saved := Place(tasks, id, toLane, toOrder);
        (Ok(saved[id]),
         if task.lane != toLane || task.order != toOrder
         then Reorder(saved, id, task.lane, task.order, toLane, toOrder)
         else saved)
  }

  /** The success case of UpdateTask once its destination (toLane, toOrder)
      has been worked out. */
  lemma UpdateTaskSaves(tasks: map<Id, Task>, lanes: map<Id, Lane>, id: Id, laneId: Option<Id>, order: Option<int>, toLane: Id, toOrder: int)
    requires id in tasks
    requires var laneChange := laneId.Some? && laneId.value != tasks[id].lane;
      && (laneChange ==> laneId.value in lanes && (IsGiven(order) || MaxOrder(tasks, laneId.value).Some?))
      && toLane == (if laneChange then laneId.value else tasks[id].lane)
      && toOrder == (if IsGiven(order) then order.value else if laneChange then MaxOrder(tasks, toLane).value + 1 else tasks[id].order)
    ensures var t := tasks[id];
      var saved := Place(tasks, id, toLane, toOrder);
      UpdateTask(tasks, lanes, id, laneId, order) ==
        (Ok(saved[id]), if t.lane != toLane || t.order != toOrder then Reorder(saved, id, t.lane, t.order, toLane, toOrder) else saved)
  {
  }

  /** `resolve_delete_task`: the row goes, the gap it leaves stays. */
  ghost function DeleteTask(tasks: map<Id, Task>, id: Id): (r: (Result<bool>, map<Id, Task>))
    ensures r.0.Ok? <==> id in tasks
    ensures r.1.Keys == tasks.Keys - {id}
    ensures forall k :: k in r.1 ==> r.1[k] == tasks[k]
  {
    if id !in tasks then (Err(NotFound), tasks)
    else (Ok(true), tasks - {id})
  }
}
