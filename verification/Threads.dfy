/** What both message queues speak of: threads, messages, and who holds a lock. */
module Threads {
  import opened Options

  type Tid(==, !new)
  type Msg(==, !new, 00)

  /** How a mutex goes with its section when a thread enters, leaves or stays. */
  ghost predicate Handover(t: Tid, before: bool, after: bool, lock: Option<Tid>, next: Option<Tid>) {
    if before == after then next == lock
    else if after then lock == None && next == Some(t)
    else next == None
  }
}
