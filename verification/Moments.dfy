/** Things that happen in the course of a traversal, between its events. */
module Moments {
  import opened DagState

  /** A turn taken when `at` events of the traversal have happened. */
  datatype Moment<+T> = Moment(turn: T, at: nat)

  /** How much of the log has happened before turn i. */
  function Cut<E, T>(log: seq<E>, moments: seq<Moment<T>>, i: nat): nat
    requires i <= |moments|
  {
    if i < |moments| then moments[i].at else |log|
  }

  /** The visit of n has begun and has not returned successfully. */
  ghost predicate InVisit<N>(log: seq<Event<N>>, at: nat, n: N)
    requires at <= |log|
  {
    Event(Visit, Began, n) in log[..at] && Event(Visit, Done, n) !in log[..at]
  }
}
