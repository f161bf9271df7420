/** ubuntu-hello/src/pam/optional_task.hh: a task that runs only if it is activated. */
module OptionalTask {

  /** The two flags and whether the std::thread still has to be joined. */
  datatype Flags = Flags(spawned: bool, active: bool, joinable: bool)

  const NEVER_STARTED := Flags(false, false, false)
  const STARTED := Flags(true, true, true)
  const JOINED := Flags(true, false, false)

  /** stop(): whether it blocks until the thread has ended. */
  predicate MustJoin(t: Flags)
  {
    t.spawned && t.active && t.joinable
  }

  function Stopped(t: Flags): Flags
  {
    if !t.spawned then t
    else if !(t.active && t.joinable) then t.(active := false)
    else t.(active := false, joinable := false)
  }

  /** A std::thread that is still joinable when it is destroyed ends the process. */
  predicate SafeToDestroy(t: Flags)
  {
    !t.joinable
  }

  /** get()'s assertion. */
  predicate MayGet(t: Flags)
  {
    !t.active && t.spawned
  }

  /** The flags a task can have between two calls. */
  predicate Reachable(t: Flags)
  {
    t == NEVER_STARTED || t == STARTED || t == JOINED
  }

  /** Stopping settles a task for good: it can be destroyed, stopping again changes
      nothing, and a result may be asked for exactly when the task was started. */
  lemma StopSettles(t: Flags)
    requires Reachable(t)
    ensures Reachable(Stopped(t)) && SafeToDestroy(Stopped(t))
    ensures Stopped(Stopped(t)) == Stopped(t) && !MustJoin(Stopped(t))
    ensures MayGet(Stopped(t)) <==> t.spawned
  {
  }

  class Task {
    var spawned: bool
    var isActive: bool
    var joinable: bool

    ghost function State(): Flags
      reads this
    {
      Flags(spawned, isActive, joinable)
    }

    constructor ()
      ensures State() == NEVER_STARTED
    {
      spawned, isActive, joinable := false, false, false;
    }

    method Activate()
      requires State() == NEVER_STARTED
      modifies this
      ensures State() == STARTED
    {
      joinable := true;
      spawned := true;
      isActive := true;
    }

    /** Whether the thread was cancelled and whether it was joined. */
    method Stop(force: bool) returns (cancelled: bool, joined: bool)
      modifies this
      ensures State() == Stopped(old(State()))
      ensures joined == MustJoin(old(State()))
      ensures cancelled == (force && MustJoin(old(State())))
    {
      cancelled, joined := false, false;
      if !spawned {
        return;
      }
      if !(isActive && joinable) {
        isActive := false;
        return;
      }
      if force {
        cancelled := true;
      }
      joinable, joined := false, true;
      isActive := false;
    }

    /** The destructor. */
    method Destroy()
      requires Reachable(State())
      modifies this
      ensures State() == Stopped(old(State())) && SafeToDestroy(State())
    {
      if isActive && spawned {
        var cancelled, joined := Stop(false);
      }
    }
  }
}
