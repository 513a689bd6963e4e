/** The mutation resolvers of task_board/task_board/schema.py over a store
    holding the TaskLane and Task tables. Each method follows its resolver
    step by step (look up, check, assign the loaded record, save, bulk
    update) and is proved to end in the state, and return the result, that
    the matching function of Resolvers describes. A method that returns an
    error has written nothing, which is what the resolver's surrounding
    `transaction.atomic` block guarantees. */
module Schema {
  import opened Models
  import opened Ordering
  import Resolvers

  class Store {
    var lanes: map<Id, Lane>
    var tasks: map<Id, Task>
    /** The key the database assigns to the next task row. */
    var nextTaskId: Id

    /** Keys below `nextTaskId`, and every task's lane exists (a foreign key). */
    ghost predicate Valid()
      reads this
    {
      forall k :: k in tasks ==> k < nextTaskId && tasks[k].lane in lanes
    }

    constructor (lanes0: map<Id, Lane>, tasks0: map<Id, Task>, nextTaskId0: Id)
      requires forall k :: k in tasks0 ==> k < nextTaskId0 && tasks0[k].lane in lanes0
      ensures Valid()
      ensures lanes == lanes0 && tasks == tasks0 && nextTaskId == nextTaskId0
    {
      lanes, tasks, nextTaskId := lanes0, tasks0, nextTaskId0;
    }

    /** `lane.task_set.aggregate(Max('order'))['order__max']`, a scan over the
        task rows; None is the null the aggregate gives on an empty lane. */
    method MaxTaskOrder(lane: Id) returns (m: Option<int>)
      ensures m == MaxOrder(tasks, lane)
    {
      m := None;
      var rest := tasks.Keys;
      while rest != {}
        invariant rest <= tasks.Keys
        invariant m.None? ==> forall k :: k in tasks && k !in rest ==> tasks[k].lane != lane
        invariant m.Some? ==> exists k :: k in tasks && k !in rest && tasks[k].lane == lane && tasks[k].order == m.value
        invariant m.Some? ==> forall k :: k in tasks && k !in rest && tasks[k].lane == lane ==> tasks[k].order <= m.value
        decreases rest
      {
        var k :| k in rest;
        if tasks[k].lane == lane && (m.None? || m.value < tasks[k].order) {
          m := Some(tasks[k].order);
        }
        rest := rest - {k};
      }
      MaxOrderCharacterized(tasks, lane, m);
    }

    /** `update_task_order`: after task `id` has been saved at
        (toLane, toOrder), shift the siblings it left and joined. */
    method UpdateTaskOrder(id: Id, fromLane: Id, fromOrder: int, toLane: Id, toOrder: int)
      modifies this`tasks
      ensures tasks == Reorder(old(tasks), id, fromLane, fromOrder, toLane, toOrder)
      ensures tasks.Keys == old(tasks).Keys
      ensures forall k :: k in tasks ==> tasks[k].lane == old(tasks)[k].lane
    {
      if fromLane != toLane {
        // update destination lane
        tasks := ShiftTasks(tasks, toLane, AtLeast(toOrder), id, 1);
        // update source lane
        tasks := ShiftTasks(tasks, fromLane, AtLeast(fromOrder), id, -1);
      } else {
        var taskStep := toOrder - fromOrder;
        if taskStep > 0 {
          tasks := ShiftTasks(tasks, toLane, Between(fromOrder + 1, toOrder), id, -1);
        } else {
          tasks := ShiftTasks(tasks, toLane, Between(toOrder, fromOrder - 1), id, 1);
        }
      }
    }

    /** `deleteTask`. */
    method DeleteTask(id: Id) returns (r: Result<bool>)
      requires Valid()
      modifies this`tasks
      ensures Valid()
      ensures (r, tasks) == Resolvers.DeleteTask(old(tasks), id)
    {
      if id !in tasks {
        return Err(NotFound);
      }
      tasks := tasks - {id};
      r := Ok(true);
    }

    /** `moveLane`, with its sibling shift confined to the lane's board
        (see MoveLaneAsWritten in module Resolvers for the query as written). */
    method MoveLane(id: Id, toLaneOrder: Option<int>) returns (r: Result<Lane>)
      requires Valid()
      modifies this`lanes
      ensures Valid()
      ensures (r, lanes) == Resolvers.MoveLane(old(lanes), id, toLaneOrder)
    {
      if id !in lanes {
        return Err(NotFound);
      }
      var lane := lanes[id];
      if toLaneOrder == Some(lane.order) {
        // nothing to update, same position
        return Ok(lane);
      }
      var fromLaneOrder := lane.order;
      if IsGiven(toLaneOrder) {
        lane := lane.(order := toLaneOrder.value);
      } else {
        return Err(DestinationLaneMissing);
      }
      var toOrder := toLaneOrder.value;
      var laneStep := toOrder - fromLaneOrder;
      lanes := lanes[id := lane];
      if laneStep > 0 {
        lanes := ShiftLanes(lanes, Some(lane.board), Between(fromLaneOrder + 1, toOrder), id, -1);
      } else {
        lanes := ShiftLanes(lanes, Some(lane.board), Between(toOrder, fromLaneOrder - 1), id, 1);
      }
      r := Ok(lane);
    }

    /** `moveTask`. */
    method MoveTask(id: Id, toLane: Option<Id>, toItemOrder: Option<int>) returns (r: Result<Task>)
      requires Valid()
      modifies this`tasks
      ensures Valid()
      ensures (r, tasks) == Resolvers.MoveTask(old(tasks), lanes, id, toLane, toItemOrder)
    {
      if id !in tasks {
        return Err(NotFound);
      }
      var task := tasks[id];
      var lane := task.lane;
      if toLane == Some(lane) && toItemOrder == Some(task.order) {
        // no change is needed
        return Ok(task);
      }
      var fromLane := lane;
      if toLane.Some? && lane != toLane.value {
        if toLane.value !in lanes {
          return Err(NotFound);
        }
        lane := toLane.value;
        task := task.(lane := lane);
      }
      var fromItemOrder := task.order;
      if IsGiven(toItemOrder) {
        task := task.(order := toItemOrder.value);
      } else {
        return Err(DestinationItemOrderMissing);
      }
      tasks := tasks[id := task];
      UpdateTaskOrder(id, fromLane, fromItemOrder, lane, toItemOrder.value);
      r := Ok(task);
    }

    /** `createTask`; `id` is the key the new row receives. */
    method CreateTask(laneId: Id, order: Option<int>) returns (r: Result<Task>, id: Id)
      requires Valid()
      modifies this`tasks, this`nextTaskId
      ensures Valid()
      ensures id == old(nextTaskId)
      ensures nextTaskId == if r.Ok? then old(nextTaskId) + 1 else old(nextTaskId)
      ensures (r, tasks) == Resolvers.CreateTask(old(tasks), lanes, old(nextTaskId), laneId, order)
    {
      id := nextTaskId;
      var initialOrder := if IsGiven(order) then order.value else 0;
      if laneId !in lanes {
        return Err(NotFound), id;
      }
      var lane := lanes[laneId];
      var task := Task(lane.board, laneId, initialOrder);
      if initialOrder == 0 {
        var max := MaxTaskOrder(laneId);
        if max.None? {
          return Err(EmptyLaneAggregate), id;
        }
        task := task.(order := max.value + 1);
      }
      tasks := tasks[id := task];
      nextTaskId := nextTaskId + 1;
      if initialOrder != 0 {
        // update destination lane
        tasks := ShiftTasks(tasks, laneId, AtLeast(task.order), id, 1);
      }
      r := Ok(task);
    }

    /** The lane and order part of `updateTask`. */
    method UpdateTask(id: Id, laneId: Option<Id>, order: Option<int>) returns (r: Result<Task>)
      requires Valid()
      modifies this`tasks
      ensures Valid()
      ensures (r, tasks) == Resolvers.UpdateTask(old(tasks), lanes, id, laneId, order)
    {
      if id !in tasks {
        return Err(NotFound);
      }
      var task := tasks[id];
      var lane := task.lane;
      var fromLane, fromOrder := task.lane, task.order;
      var toLane, toOrder := fromLane, fromOrder;
      if laneId.Some? && task.lane != laneId.value {
        // moving to a different lane
        if laneId.value !in lanes {
          return Err(NotFound);
        }
        lane := laneId.value;
        task := task.(lane := lane);
        toLane := lane;
        if !IsGiven(order) {
          // no order for the new lane: move as last item
          var max := MaxTaskOrder(lane);
          if max.None? {
            return Err(EmptyLaneAggregate);
          }
          task := task.(order := max.value + 1);
          toOrder := task.order;
        }
      }
      if IsGiven(order) {
        task := task.(order := order.value);
        toOrder := task.order;
        if laneId.None? {
          toLane := lane;
        }
      }
      Resolvers.UpdateTaskSaves(tasks, lanes, id, laneId, order, toLane, toOrder);
      assert task == Task(tasks[id].board, toLane, toOrder);
      tasks := tasks[id := task];
      if fromLane != toLane || fromOrder != toOrder {
        UpdateTaskOrder(id, fromLane, fromOrder, toLane, toOrder);
      }
      r := Ok(task);
    }
  }
}
