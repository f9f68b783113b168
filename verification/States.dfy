/** What the actor runtime's components share: the states of a module and the outcomes of a call. */
module States {

  datatype ModState = Idle | Running | Paused | Stopped | Zombie

  /** 0, -EACCES, -EAGAIN, -EPERM, -EINVAL, and an error passed on from the poll plugin. */
  datatype Outcome = Done | NoAccess | TryAgain | NotPermitted | Invalid | PollError
}
