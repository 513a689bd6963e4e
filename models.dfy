/** Record shapes of the task board (tasks/models.py) restricted to the
    fields that take part in ordering, and the optional inputs and error
    results that the mutation resolvers work with. */
module Models {

  /** Primary keys of boards, lanes and tasks: one identifier type for all. */
  type Id = nat

  /** A TaskLane row: the board it belongs to and its rank among that board's lanes. */
  datatype Lane = Lane(board: Id, order: int)

  /** A Task row: its board, its lane and its rank among that lane's tasks. */
  datatype Task = Task(board: Id, lane: Id, order: int)

  /** An argument a caller may leave out. */
  datatype Option<T> = None | Some(value: T)

  /** The ways a resolver fails. */
  datatype Error =
    | NotFound                     // a get() by id found no row
    | DestinationLaneMissing       // moveLane without a usable toLaneOrder
    | DestinationItemOrderMissing  // moveTask without a usable toItemOrder
    | EmptyLaneAggregate           // max(order) over an empty lane is null, and null + 1 fails

  datatype Result<T> = Ok(value: T) | Err(error: Error)

  /** The truthiness test the resolvers apply to an integer argument:
      an absent value and the value 0 are both "not given". */
  predicate IsGiven(o: Option<int>)
  {
    o.Some? && o.value != 0
  }
}
