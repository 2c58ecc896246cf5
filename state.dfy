/** One recorded step of an algorithm: `algorithms.State`. The id, the elapsed time and the
    iteration are fixed at construction; `next` and `previous` are the only mutable fields
    and stay unset until a state machine links the state into its list. The fields that a
    subclass such as `SortingState` adds are the payload `event` of type `E`. */
module States {

  /** What a state records, without its time and its links. */
  datatype Entry<E> = Entry(id: int, iteration: int, event: E)

  class State<E> {
    var next: State?<E>
    var previous: State?<E>
    const id: int
    const time: real
    const iteration: int
    const event: E

    constructor (id: int, time: real, iteration: int, event: E)
      ensures this.id == id && this.time == time && this.iteration == iteration
      ensures this.event == event
      ensures next == null && previous == null
    {
      this.id := id;
      this.time := time;
      this.iteration := iteration;
      this.event := event;
      next := null;
      previous := null;
    }

    /** The immutable part of this state as a value. */
    function AsEntry(): Entry<E> {
      Entry(id, iteration, event)
    }
  }
}
