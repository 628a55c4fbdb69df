/** Threads as the locks and the scheduler see them (include/task.h, src/sched.c:355-383). */
module Threads {
  type Tid = nat

  /** `thread_state_t` of a live thread. */
  datatype Status = Ready | Running | Blocked

  type StatusMap = map<Tid, Status>

  /** `wake_up`: a blocked thread becomes ready, any other is left alone with a warning. */
  function WakeUp(st: StatusMap, t: Tid): StatusMap {
    if t in st && st[t] == Blocked then st[t := Ready] else st
  }
}
