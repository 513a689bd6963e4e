/** Worked examples of the ordering rules on small concrete tables. */
module Scenarios {
  import opened Models
  import opened Ordering
  import opened Resolvers
  import opened Properties

  /** Lane 10 holds tasks 1, 2, 3 ranked 1, 2, 3; moving task 1 to rank 3 of
      the same lane ranks task 2 first, task 3 second and task 1 third. */
  lemma MoveFirstTaskToEnd()
    ensures var tasks := map[1 := Task(1, 10, 1), 2 := Task(1, 10, 2), 3 := Task(1, 10, 3)];
      var lanes := map[10 := Lane(1, 1)];
      var (r, after) := MoveTask(tasks, lanes, 1, Some(10), Some(3));
      && r == Ok(Task(1, 10, 3))
      && after == map[1 := Task(1, 10, 3), 2 := Task(1, 10, 1), 3 := Task(1, 10, 2)]
  {
    var tasks := map[1 := Task(1, 10, 1), 2 := Task(1, 10, 2), 3 := Task(1, 10, 3)];
    var lanes := map[10 := Lane(1, 1)];
    MoveTaskLater(tasks, lanes, 1, Some(10), 3);
    var after := MoveTask(tasks, lanes, 1, Some(10), Some(3)).1;
    assert after[1] == Task(1, 10, 3) && after[2] == Task(1, 10, 1) && after[3] == Task(1, 10, 2);
  }

  /** Lane 10 holds tasks 1 and 2 ranked 1 and 2, lane 11 is empty; moving
      task 1 to rank 1 of lane 11 leaves task 2 ranked 1 in lane 10. */
  lemma MoveTaskIntoEmptyLane()
    ensures var tasks := map[1 := Task(1, 10, 1), 2 := Task(1, 10, 2)];
      var lanes := map[10 := Lane(1, 1), 11 := Lane(1, 2)];
      var (r, after) := MoveTask(tasks, lanes, 1, Some(11), Some(1));
      && r == Ok(Task(1, 11, 1))
      && after == map[1 := Task(1, 11, 1), 2 := Task(1, 10, 1)]
  {
    var tasks := map[1 := Task(1, 10, 1), 2 := Task(1, 10, 2)];
    var lanes := map[10 := Lane(1, 1), 11 := Lane(1, 2)];
    MoveTaskAcrossLanes(tasks, lanes, 1, 11, 1);
    var after := MoveTask(tasks, lanes, 1, Some(11), Some(1)).1;
    assert after[1] == Task(1, 11, 1) && after[2] == Task(1, 10, 1);
  }

  /** Appending to a lane whose largest order is 2 gives order 3; appending
      to an empty lane fails. */
  lemma AppendAfterLargestOrder()
    ensures var tasks := map[1 := Task(1, 10, 1), 2 := Task(1, 10, 2)];
      var lanes := map[10 := Lane(1, 1), 11 := Lane(1, 2)];
      && CreateTask(tasks, lanes, 3, 10, None) == (Ok(Task(1, 10, 3)), tasks[3 := Task(1, 10, 3)])
      && CreateTask(tasks, lanes, 3, 11, None) == (Err(EmptyLaneAggregate), tasks)
  {
    var tasks := map[1 := Task(1, 10, 1), 2 := Task(1, 10, 2)];
    var lanes := map[10 := Lane(1, 1), 11 := Lane(1, 2)];
    assert 1 in LaneMembers(tasks, 10);
    CreateTaskAppends(tasks, lanes, 3, 10, None);
    var r := CreateTask(tasks, lanes, 3, 10, None).0;
    assert tasks[2].order < r.value.order;
    var k :| k in tasks && tasks[k].lane == 10 && tasks[k].order == r.value.order - 1;
    assert r.value.order == 3;
    CreateTaskInEmptyLaneFails(tasks, lanes, 3, 11, None);
  }
}
