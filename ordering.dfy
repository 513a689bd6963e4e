/** The ordering machinery shared by the mutation resolvers of
    task_board/task_board/schema.py: the bulk `order = order ± 1` updates,
    the sibling shift of `update_task_order`, the `max(order)` aggregate,
    and the invariants these keep. */
module Ordering {
  import opened Models

  /** A filter on the order column: `order >= lo`, or the inclusive range
      `lo <= order <= hi` (empty when lo > hi, as an SQL BETWEEN is). */
  datatype Span = AtLeast(lo: int) | Between(lo: int, hi: int)

  predicate InSpan(o: int, span: Span)
  {
    match span
    case AtLeast(lo) => lo <= o
    case Between(lo, hi) => lo <= o <= hi
  }

  /** The bulk update `Task.objects.filter(lane_id=lane, order in span)
      .exclude(id=exclude).update(order=F('order') + delta)`. */
  function ShiftTasks(tasks: map<Id, Task>, lane: Id, span: Span, exclude: Id, delta: int): (r: map<Id, Task>)
    ensures r.Keys == tasks.Keys
  {
    map k | k in tasks ::
      if k != exclude && tasks[k].lane == lane && InSpan(tasks[k].order, span)
      then tasks[k].(order := tasks[k].order + delta)
      else tasks[k]
  }

  /** The bulk update `TaskLane.objects.filter(order in span).exclude(id=exclude)
      .update(order=F('order') + delta)`, further filtered on `board_id`
      when `board` is given. */
  function ShiftLanes(lanes: map<Id, Lane>, board: Option<Id>, span: Span, exclude: Id, delta: int): (r: map<Id, Lane>)
    ensures r.Keys == lanes.Keys
  {
    map k | k in lanes ::
      if k != exclude && (board.None? || lanes[k].board == board.value) && InSpan(lanes[k].order, span)
      then lanes[k].(order := lanes[k].order + delta)
      else lanes[k]
  }

  /** Saving a moved task: its lane and order are overwritten, its board is not. */
  function Place(tasks: map<Id, Task>, id: Id, lane: Id, order: int): (r: map<Id, Task>)
    requires id in tasks
    ensures r.Keys == tasks.Keys
    ensures r[id] == Task(tasks[id].board, lane, order)
    ensures forall k :: k in tasks && k != id ==> r[k] == tasks[k]
  {
    tasks[id := tasks[id].(lane := lane, order := order)]
  }

  /** `update_task_order`: the sibling shift that follows saving task `id`
      at (toLane, toOrder) when it was at (fromLane, fromOrder). */
  function Reorder(tasks: map<Id, Task>, id: Id, fromLane: Id, fromOrder: int, toLane: Id, toOrder: int): (r: map<Id, Task>)
    ensures r.Keys == tasks.Keys
    ensures id in tasks ==> r[id] == tasks[id]
    ensures forall k :: k in r ==> r[k].lane == tasks[k].lane && r[k].board == tasks[k].board
  {
    if fromLane != toLane then
      // open a slot in the destination lane, then close the gap in the source lane
      var slotOpen := ShiftTasks(tasks, toLane, AtLeast(toOrder), id, 1);
      ShiftTasks(slotOpen, fromLane, AtLeast(fromOrder), id, -1)
    else if toOrder - fromOrder > 0 then
      ShiftTasks(tasks, toLane, Between(fromOrder + 1, toOrder), id, -1)
    else
      ShiftTasks(tasks, toLane, Between(toOrder, fromOrder - 1), id, 1)
  }

  /** An independent, per-task account of a move from (fromLane, fromOrder)
      to (toLane, toOrder): by how much the order of sibling `t` changes. */
  function Displacement(t: Task, fromLane: Id, fromOrder: int, toLane: Id, toOrder: int): int
  {
    if fromLane != toLane then
      if t.lane == toLane && t.order >= toOrder then 1
      else if t.lane == fromLane && t.order >= fromOrder then -1
      else 0
    else if t.lane != toLane then 0
    else if fromOrder < toOrder then
      (if fromOrder < t.order <= toOrder then -1 else 0)
    else if toOrder <= t.order < fromOrder then 1
    else 0
  }

  /** Reorder moves every task other than the moved one by exactly its
      Displacement, keeping its lane and board. */
  lemma ReorderMatchesDisplacement(tasks: map<Id, Task>, id: Id, fromLane: Id, fromOrder: int, toLane: Id, toOrder: int)
    ensures var r := Reorder(tasks, id, fromLane, fromOrder, toLane, toOrder);
      forall k :: k in tasks && k != id ==>
           r[k] == tasks[k].(order := tasks[k].order + Displacement(tasks[k], fromLane, fromOrder, toLane, toOrder))
  {
  }

  // ---------------------------------------------------------------------
  // Invariants

  /** Distinct task orders: no two tasks of one lane share an order. */
  ghost predicate TaskOrdersDistinct(tasks: map<Id, Task>)
  {
    forall a, b :: a in tasks && b in tasks && a != b && tasks[a].lane == tasks[b].lane ==>
      tasks[a].order != tasks[b].order
  }

  /** Distinct lane orders: no two lanes of one board share an order. */
  ghost predicate LaneOrdersDistinct(lanes: map<Id, Lane>)
  {
    forall a, b :: a in lanes && b in lanes && a != b && lanes[a].board == lanes[b].board ==>
      lanes[a].order != lanes[b].order
  }

  /** Board consistency: every task's lane exists and the task's board is
      its lane's board. */
  ghost predicate BoardConsistent(tasks: map<Id, Task>, lanes: map<Id, Lane>)
  {
    forall k :: k in tasks ==> tasks[k].lane in lanes && lanes[tasks[k].lane].board == tasks[k].board
  }

  /** The tasks of one lane. */
  ghost function LaneMembers(tasks: map<Id, Task>, lane: Id): set<Id>
  {
    set k | k in tasks && tasks[k].lane == lane
  }

  /** Moving task `id` to (toLane, toOrder) and shifting its siblings keeps
      the orders of every lane pairwise distinct. */
  lemma ReorderPreservesDistinct(tasks: map<Id, Task>, id: Id, toLane: Id, toOrder: int)
    requires id in tasks && TaskOrdersDistinct(tasks)
    ensures TaskOrdersDistinct(Reorder(Place(tasks, id, toLane, toOrder), id, tasks[id].lane, tasks[id].order, toLane, toOrder))
  {
    var t := tasks[id];
    var placed := Place(tasks, id, toLane, toOrder);
    var r := Reorder(placed, id, t.lane, t.order, toLane, toOrder);
    ReorderMatchesDisplacement(placed, id, t.lane, t.order, toLane, toOrder);
    forall a, b | a in r && b in r && a != b && r[a].lane == r[b].lane
      ensures r[a].order != r[b].order
    {
      if a != id && b != id {
        assert tasks[a].order != tasks[b].order;
      }
    }
  }

  /** Reorder never changes which lane a task is in, so after a move only the
      moved task has changed lane. */
  lemma ReorderLaneMembers(tasks: map<Id, Task>, id: Id, toLane: Id, toOrder: int, lane: Id)
    requires id in tasks
    ensures var r := Reorder(Place(tasks, id, toLane, toOrder), id, tasks[id].lane, tasks[id].order, toLane, toOrder);
      LaneMembers(r, lane) == (LaneMembers(tasks, lane) - {id}) + (if lane == toLane then {id} else {})
  {
    var t := tasks[id];
    var placed := Place(tasks, id, toLane, toOrder);
    ReorderMatchesDisplacement(placed, id, t.lane, t.order, toLane, toOrder);
  }

  // ---------------------------------------------------------------------
  // The max(order) aggregate

  /** The orders of the tasks of one lane. */
  ghost function OrdersIn(tasks: map<Id, Task>, lane: Id): set<int>
  {
    set k | k in tasks && tasks[k].lane == lane :: tasks[k].order
  }

  /** The largest element of a non-empty set of orders. */
  ghost function MaxOf(s: set<int>): (m: int)
    requires s != {}
    ensures m in s
    ensures forall y :: y in s ==> y <= m
  {
    NonEmptyHasElement(s);
    var x :| x in s;
    if s == {x} then
      assert forall y :: y in s ==> y == x;
      x
    else
      var rest := MaxOf(s - {x});
      assert forall y :: y in s ==> y == x || y in s - {x};
      if x < rest then rest else x
  }

  lemma NonEmptyHasElement(s: set<int>)
    requires s != {}
    ensures exists x :: x in s
  {
    if forall x :: x !in s {
      assert false;
    }
  }

  /** `lane.task_set.aggregate(Max('order'))['order__max']`: None (SQL null)
      on a lane without tasks. */
  ghost function MaxOrder(tasks: map<Id, Task>, lane: Id): Option<int>
  {
    var orders := OrdersIn(tasks, lane);
    if orders == {} then None else Some(MaxOf(orders))
  }

  /** What it means for `m` to be the result of the aggregate. */
  ghost predicate IsMaxOrder(tasks: map<Id, Task>, lane: Id, m: Option<int>)
  {
    match m
    case None => forall k :: k in tasks ==> tasks[k].lane != lane
    case Some(v) =>
      && (exists k :: k in tasks && tasks[k].lane == lane && tasks[k].order == v)
      && (forall k :: k in tasks && tasks[k].lane == lane ==> tasks[k].order <= v)
  }

  /** MaxOrder is exactly the value that IsMaxOrder describes. */
  lemma MaxOrderCharacterized(tasks: map<Id, Task>, lane: Id, m: Option<int>)
    ensures IsMaxOrder(tasks, lane, m) <==> m == MaxOrder(tasks, lane)
  {
    var orders := OrdersIn(tasks, lane);
    if orders == {} {
      forall j | j in tasks && tasks[j].lane == lane
        ensures tasks[j].order in orders
      {
      }
    } else {
      var v := MaxOf(orders);
      var k :| k in tasks && tasks[k].lane == lane && tasks[k].order == v;
      forall j | j in tasks && tasks[j].lane == lane
        ensures tasks[j].order <= v
      {
        assert tasks[j].order in orders;
      }
      if m.None? {
        assert !IsMaxOrder(tasks, lane, m) by { assert tasks[k].lane == lane; }
      } else if IsMaxOrder(tasks, lane, m) {
        var j :| j in tasks && tasks[j].lane == lane && tasks[j].order == m.value;
        assert m.value in orders;
        assert tasks[k].order <= m.value;
      }
    }
  }
}
