/** identify() of ubuntu-hello/src/pam/main.cc after preflight: compare.py runs as a
    child, a waiter thread waits for it, a password thread may wait for the user,
    and the main thread sleeps on a condition variable until one of them wrote
    confirmation_type. One action is one step of one thread or of the environment. */
module IdentifyRace {
  import opened Options
  import opened OptionalTask

  datatype Confirmation = Unset | UbuntuHello | Pam

  datatype Workaround = Off | Input | Native

  /** What a wait status says: WIFEXITED with a code, or WIFSIGNALED. */
  datatype WaitStatus = Exited(code: int) | Signaled(signal: int)

  datatype PamCode = PamSuccess | PamIgnore | PamAuthErr | PamOther(code: int)

  datatype Setup = Setup(askAuthTok: bool, workaround: Workaround)

  const MAX_RETRIES := 5

  predicate AskPass(setup: Setup)
  {
    setup.askAuthTok && setup.workaround != Off
  }

  datatype Actor = MainThread | WaiterThread | PassThread

  /** The waiter thread: waitpid, then lock, write, unlock, notify. */
  datatype Waiter =
    | WIdle
    | WWaitpid
    | WLock(status: WaitStatus)
    | WWrite(status: WaitStatus)
    | WUnlock(status: WaitStatus)
    | WNotify(status: WaitStatus)
    | WDone(status: WaitStatus)

  /** The password thread: pam_get_authtok, then the same four steps. */
  datatype Password =
    | PIdle
    | PPrompt
    | PLock(result: PamCode)
    | PWrite(result: PamCode)
    | PUnlock(result: PamCode)
    | PNotify(result: PamCode)
    | PDone(result: PamCode)
    | PCancelled

  /** The main thread. */
  datatype Main =
    | ActivateChild
    | ActivatePass
    | Lock
    | Test
    | Asleep
    | Unlock
    | Branch
    // the password won
    | Terminate
    | AwaitTerm
    | Kill
    | JoinChildAfterPass
    | StopPass
    | GetPass
    // the child won
    | JoinChild
    | GetStatus
    | Decide(status: WaitStatus)
    | StopPassAfterFailure(status: WaitStatus)
    | GetPassAfterFailure(status: WaitStatus)
    | Dismiss(status: WaitStatus)
    | PressEnter(status: WaitStatus, left: nat)
    | CancelPass(status: WaitStatus)
    | JoinPass(status: WaitStatus)
    | Finish(status: WaitStatus)
    | Returned(code: PamCode)

  /** What terminate_compare_group has sent to compare's process group. */
  datatype Signalled = NoSignal | SigTerm | SigKill

  datatype State = State(
    confirmation: Confirmation,
    mutex: Option<Actor>,
    child: Option<WaitStatus>,   // None while compare runs
    waiter: Waiter,
    password: Password,
    cancelRequested: bool,
    main: Main,
    childTask: Flags,
    passTask: Flags,
    signalled: Signalled)

  const INITIAL := State(Unset, None, None, WIdle, PIdle, false, ActivateChild, NEVER_STARTED, NEVER_STARTED, NoSignal)

  datatype Action =
    | ChildEnds(status: WaitStatus)     // on its own or by a signal
    | PromptAnswers(result: PamCode)
    | CancelDelivered                   // pam_get_authtok is the cancellation point
    | SpuriousWakeup
    | WaitTimesOut                      // future.wait_for gives up
    | UinputFails                       // no permission, or EnterDeviceError
    | WaiterStep
    | PasswordStep
    | MainStep

  /** WIFEXITED && WEXITSTATUS != EXIT_SUCCESS */
  predicate FailedExit(status: WaitStatus)
  {
    status.Exited? && status.code != 0
  }

  /** ubuntu_hello_status: PAM_SUCCESS for a zero wait status only. */
  function StatusCode(status: WaitStatus): PamCode
  {
    if status == Exited(0) then PamSuccess else PamAuthErr
  }

  /** notify_one with only main waiting: a sleeping main goes back for the lock, any other notify is lost. */
  function Notified(main: Main): Main
  {
    if main.Asleep? then Lock else main
  }

  function WaiterNext(s: State): Option<State>
  {
    match s.waiter
    case WWaitpid => if s.child.Some? then Some(s.(waiter := WLock(s.child.value))) else None
    case WLock(st) =>
      if s.mutex == None then Some(s.(mutex := Some(WaiterThread), waiter := WWrite(st))) else None
    case WWrite(st) =>
      Some(s.(confirmation := if s.confirmation == Unset then UbuntuHello else s.confirmation, waiter := WUnlock(st)))
    case WUnlock(st) => Some(s.(mutex := None, waiter := WNotify(st)))
    case WNotify(st) => Some(s.(main := Notified(s.main), waiter := WDone(st)))
    case _ => None
  }

  function PasswordNext(s: State): Option<State>
  {
    match s.password
    case PLock(r) =>
      if s.mutex == None then Some(s.(mutex := Some(PassThread), password := PWrite(r))) else None
    case PWrite(r) =>
      Some(s.(confirmation := if s.confirmation == Unset then Pam else s.confirmation, password := PUnlock(r)))
    case PUnlock(r) => Some(s.(mutex := None, password := PNotify(r)))
    case PNotify(r) => Some(s.(main := Notified(s.main), password := PDone(r)))
    case _ => None
  }

  predicate PasswordEnded(p: Password)
  {
    p.PDone? || p.PCancelled?
  }

  /** stop(): goes on at once when there is nothing to join, otherwise once the thread has ended. */
  function JoinedChild(s: State, next: Main): Option<State>
  {
    if MustJoin(s.childTask) && !s.waiter.WDone? then None
    else Some(s.(childTask := Stopped(s.childTask), main := next))
  }

  function JoinedPass(s: State, next: Main): Option<State>
  {
    if MustJoin(s.passTask) && !PasswordEnded(s.password) then None
    else Some(s.(passTask := Stopped(s.passTask), main := next))
  }

  predicate Prelude(m: Main)
  {
    m.ActivateChild? || m.ActivatePass? || m.Lock? || m.Test? || m.Asleep? || m.Unlock? || m.Branch?
  }

  predicate PasswordWon(m: Main)
  {
    m.Terminate? || m.AwaitTerm? || m.Kill? || m.JoinChildAfterPass? || m.StopPass? || m.GetPass?
  }

  /** Up to the decision who won. */
  function PreludeNext(setup: Setup, s: State): Option<State>
  {
    match s.main
    case ActivateChild => Some(s.(childTask := STARTED, waiter := WWaitpid, main := ActivatePass))
    case ActivatePass =>
      if AskPass(setup) then Some(s.(passTask := STARTED, password := PPrompt, main := Lock))
      else Some(s.(main := Lock))
    case Lock => if s.mutex == None then Some(s.(mutex := Some(MainThread), main := Test)) else None
    case Test =>
      if s.confirmation == Unset then Some(s.(mutex := None, main := Asleep)) else Some(s.(main := Unlock))
    case Unlock => Some(s.(mutex := None, main := Branch))
    case Branch => Some(s.(main := if s.confirmation == Pam then Terminate else JoinChild))
    case _ => None
  }

  function PasswordWonNext(s: State): Option<State>
  {
    match s.main
    case Terminate => Some(s.(signalled := SigTerm, main := AwaitTerm))
    case AwaitTerm => if s.waiter.WDone? then Some(s.(main := JoinChildAfterPass)) else None
    case Kill => Some(s.(signalled := SigKill, main := JoinChildAfterPass))
    case JoinChildAfterPass => JoinedChild(s, StopPass)
    case StopPass => JoinedPass(s, GetPass)
    case GetPass =>
      if MayGet(s.passTask) && s.password.PDone?
      then Some(s.(main := Returned(if s.password.result == PamSuccess then PamIgnore else s.password.result)))
      else None
    case _ => None
  }

  function ChildWonNext(setup: Setup, s: State): Option<State>
  {
    match s.main
    case JoinChild => JoinedChild(s, GetStatus)
    case GetStatus =>
      if MayGet(s.childTask) && s.waiter.WDone? then Some(s.(main := Decide(s.waiter.status))) else None
    case Decide(st) =>
      Some(s.(main := if FailedExit(st) && AskPass(setup) then StopPassAfterFailure(st) else Dismiss(st)))
    case StopPassAfterFailure(st) => JoinedPass(s, GetPassAfterFailure(st))
    case GetPassAfterFailure(st) =>
      if MayGet(s.passTask) && s.password.PDone?
      then Some(s.(main := Returned(if s.password.result == PamSuccess then PamIgnore else StatusCode(st))))
      else None
    case Dismiss(st) =>
      Some(s.(main := match setup.workaround
                      case Native => CancelPass(st)
                      case Input => PressEnter(st, MAX_RETRIES)
                      case Off => Finish(st)))
    case PressEnter(st, left) =>
      if left == 0 || PasswordEnded(s.password) then Some(s.(main := JoinPass(st))) else None
    case CancelPass(st) => Some(s.(cancelRequested := MustJoin(s.passTask), main := JoinPass(st)))
    case JoinPass(st) => JoinedPass(s, Finish(st))
    case Finish(st) => Some(s.(main := Returned(StatusCode(st))))
    case _ => None
  }

  function MainNext(setup: Setup, s: State): Option<State>
  {
    if Prelude(s.main) then PreludeNext(setup, s)
    else if PasswordWon(s.main) then PasswordWonNext(s)
    else ChildWonNext(setup, s)
  }

  function Next(setup: Setup, s: State, a: Action): Option<State>
  {
    match a
    case ChildEnds(st) => if s.child == None then Some(s.(child := Some(st))) else None
    case PromptAnswers(r) => if s.password.PPrompt? then Some(s.(password := PLock(r))) else None
    case CancelDelivered =>
      if s.password.PPrompt? && s.cancelRequested then Some(s.(password := PCancelled)) else None
    case SpuriousWakeup => if s.main.Asleep? then Some(s.(main := Lock)) else None
    case WaitTimesOut =>
      if s.main.AwaitTerm? then Some(s.(main := Kill))
      else if s.main.PressEnter? && s.main.left > 0 then Some(s.(main := PressEnter(s.main.status, s.main.left - 1)))
      else None
    case UinputFails => if s.main.PressEnter? then Some(s.(main := JoinPass(s.main.status))) else None
    case WaiterStep => WaiterNext(s)
    case PasswordStep => PasswordNext(s)
    case MainStep => MainNext(setup, s)
  }

  /** The state after a run; None when some action was not possible. */
  function Run(setup: Setup, s: State, actions: seq<Action>): Option<State>
    decreases actions
  {
    if actions == [] then Some(s)
    else
      match Next(setup, s, actions[0])
      case None => None
      case Some(s') => Run(setup, s', actions[1..])
  }

  // ------------------------------------------------------------ the invariant

  predicate WaiterWrote(w: Waiter)
  {
    w.WUnlock? || w.WNotify? || w.WDone?
  }

  predicate PasswordWrote(p: Password)
  {
    p.PUnlock? || p.PNotify? || p.PDone?
  }

  /** A thread that wrote and has its notify still before it. */
  predicate NotifyToCome(s: State)
  {
    s.waiter.WUnlock? || s.waiter.WNotify? || s.password.PUnlock? || s.password.PNotify?
  }

  predicate MutexIsHeldByItsHolder(s: State)
  {
    && (s.mutex == Some(WaiterThread) <==> s.waiter.WWrite? || s.waiter.WUnlock?)
    && (s.mutex == Some(PassThread) <==> s.password.PWrite? || s.password.PUnlock?)
    && (s.mutex == Some(MainThread) <==> s.main.Test? || s.main.Unlock?)
  }

  predicate ConfirmationIsJustified(s: State)
  {
    && (s.confirmation == Unset <==> !WaiterWrote(s.waiter) && !PasswordWrote(s.password))
    && (s.confirmation == UbuntuHello ==> WaiterWrote(s.waiter))
    && (s.confirmation == Pam ==> PasswordWrote(s.password))
  }

  /** Main is never asleep with the predicate true and no notify to come. */
  predicate NoLostWakeup(s: State)
  {
    s.main.Asleep? && s.confirmation != Unset ==> NotifyToCome(s)
  }

  predicate BeforeBranch(m: Main)
  {
    m.ActivateChild? || m.ActivatePass? || m.Lock? || m.Test? || m.Asleep?
  }

  /** The password has won, or is about to, and compare has not been signalled. */
  predicate EarlyPassword(m: Main)
  {
    m.Unlock? || m.Branch? || m.Terminate?
  }

  predicate ChildJoined(m: Main)
  {
    || m.StopPass? || m.GetPass? || m.GetStatus? || m.Decide? || m.StopPassAfterFailure? || m.GetPassAfterFailure?
    || m.Dismiss? || m.PressEnter? || m.CancelPass? || m.JoinPass? || m.Finish? || m.Returned?
  }

  predicate PassSettled(m: Main)
  {
    m.GetPass? || m.GetPassAfterFailure? || m.Finish? || m.Returned?
  }

  predicate HasStatus(m: Main)
  {
    || m.Decide? || m.StopPassAfterFailure? || m.GetPassAfterFailure? || m.Dismiss? || m.PressEnter? || m.CancelPass?
    || m.JoinPass? || m.Finish?
  }

  predicate TasksMatchTheProgram(setup: Setup, s: State)
  {
    && (s.childTask == if s.main.ActivateChild? then NEVER_STARTED else if ChildJoined(s.main) then JOINED else STARTED)
    && (s.passTask == if s.main.ActivateChild? || s.main.ActivatePass? || !AskPass(setup) then NEVER_STARTED
                      else if PassSettled(s.main) then JOINED else STARTED)
    && (s.main.ActivateChild? <==> s.waiter.WIdle?)
    && (s.password.PIdle? <==> s.passTask == NEVER_STARTED)
    && (ChildJoined(s.main) ==> s.waiter.WDone?)
    && (s.passTask == JOINED ==> PasswordEnded(s.password))
  }

  predicate BranchesMatch(setup: Setup, s: State)
  {
    && (!BeforeBranch(s.main) ==> s.confirmation != Unset)
    && (PasswordWon(s.main) ==> s.confirmation == Pam)
    && (s.main.JoinChild? || s.main.GetStatus? || HasStatus(s.main) ==> s.confirmation == UbuntuHello)
    && (s.main.StopPassAfterFailure? || s.main.GetPassAfterFailure? ==> FailedExit(s.main.status) && AskPass(setup))
    && (s.main.Dismiss? || s.main.PressEnter? || s.main.CancelPass? || s.main.JoinPass? || s.main.Finish?
        ==> !(FailedExit(s.main.status) && AskPass(setup)))
    && (s.main.PressEnter? ==> setup.workaround == Input)
    && (s.main.CancelPass? ==> setup.workaround == Native)
    && (s.main.JoinPass? ==> setup.workaround != Off)
    && (s.main.Finish? && setup.workaround == Off ==> !AskPass(setup))
    && (s.cancelRequested ==> s.main.JoinPass? || s.main.Finish? || s.main.Returned?)
    && (setup.workaround == Native && AskPass(setup) && (s.main.JoinPass? || s.main.Finish?) ==> s.cancelRequested)
    && (s.signalled == NoSignal <==> s.confirmation != Pam || BeforeBranch(s.main) || EarlyPassword(s.main))
    && (s.signalled == SigKill ==> s.confirmation == Pam && !s.main.Kill? && !s.main.AwaitTerm?)
    && (s.main.JoinChildAfterPass? && s.signalled == SigTerm ==> s.waiter.WDone?)
    && (s.password.PCancelled? ==> s.cancelRequested)
  }

  function StatusOf(w: Waiter): Option<WaitStatus>
  {
    if w.WIdle? || w.WWaitpid? then None else Some(w.status)
  }

  predicate StatusIsTheChilds(s: State)
  {
    && (StatusOf(s.waiter).Some? ==> s.child == StatusOf(s.waiter))
    && (HasStatus(s.main) ==> s.child == Some(s.main.status))
  }

  /** Every way identify returns. */
  predicate Justified(setup: Setup, s: State, code: PamCode)
  {
    || (s.confirmation == Pam && s.password.PDone?
        && code == if s.password.result == PamSuccess then PamIgnore else s.password.result)
    || (s.confirmation == UbuntuHello && s.child.Some? && FailedExit(s.child.value) && AskPass(setup) && s.password.PDone?
        && code == if s.password.result == PamSuccess then PamIgnore else StatusCode(s.child.value))
    || (s.confirmation == UbuntuHello && s.child.Some? && !(FailedExit(s.child.value) && AskPass(setup))
        && code == StatusCode(s.child.value))
  }

  predicate Inv(setup: Setup, s: State)
  {
    && MutexIsHeldByItsHolder(s)
    && ConfirmationIsJustified(s)
    && NoLostWakeup(s)
    && TasksMatchTheProgram(setup, s)
    && BranchesMatch(setup, s)
    && StatusIsTheChilds(s)
    && (s.main.Returned? ==> Justified(setup, s, s.main.code))
  }

  // --------------------------- each part of the invariant, in each section of main

  lemma PreludeKeepsThreads(setup: Setup, s: State)
    requires Inv(setup, s) && PreludeNext(setup, s).Some?
    ensures var n := PreludeNext(setup, s).value;
            MutexIsHeldByItsHolder(n) && ConfirmationIsJustified(n) && NoLostWakeup(n)
  {
    hide BranchesMatch, StatusIsTheChilds, Justified;
  }

  lemma PreludeKeepsTasks(setup: Setup, s: State)
    requires Inv(setup, s) && PreludeNext(setup, s).Some?
    ensures TasksMatchTheProgram(setup, PreludeNext(setup, s).value)
  {
    hide MutexIsHeldByItsHolder, ConfirmationIsJustified, NoLostWakeup, StatusIsTheChilds, Justified;
  }

  lemma PreludeKeepsBranches(setup: Setup, s: State)
    requires Inv(setup, s) && PreludeNext(setup, s).Some?
    ensures BranchesMatch(setup, PreludeNext(setup, s).value)
  {
    hide MutexIsHeldByItsHolder, NoLostWakeup, Justified;
  }

  lemma PreludeKeepsStatus(setup: Setup, s: State)
    requires Inv(setup, s) && PreludeNext(setup, s).Some?
    ensures StatusIsTheChilds(PreludeNext(setup, s).value)
  {
    hide MutexIsHeldByItsHolder, ConfirmationIsJustified, NoLostWakeup, BranchesMatch, Justified;
  }

  lemma PreludeKeepsResult(setup: Setup, s: State)
    requires Inv(setup, s) && PreludeNext(setup, s).Some?
    ensures var n := PreludeNext(setup, s).value; n.main.Returned? ==> Justified(setup, n, n.main.code)
  {
    hide MutexIsHeldByItsHolder, NoLostWakeup;
  }

  lemma PasswordWonKeepsThreads(setup: Setup, s: State)
    requires Inv(setup, s) && PasswordWonNext(s).Some?
    ensures var n := PasswordWonNext(s).value;
            MutexIsHeldByItsHolder(n) && ConfirmationIsJustified(n) && NoLostWakeup(n)
  {
    hide BranchesMatch, StatusIsTheChilds, Justified, TasksMatchTheProgram;
  }

  lemma PasswordWonKeepsTasks(setup: Setup, s: State)
    requires Inv(setup, s) && PasswordWonNext(s).Some?
    ensures TasksMatchTheProgram(setup, PasswordWonNext(s).value)
  {
    hide MutexIsHeldByItsHolder, ConfirmationIsJustified, NoLostWakeup, StatusIsTheChilds, Justified;
  }

  lemma PasswordWonKeepsBranches(setup: Setup, s: State)
    requires Inv(setup, s) && PasswordWonNext(s).Some?
    ensures BranchesMatch(setup, PasswordWonNext(s).value)
  {
    hide MutexIsHeldByItsHolder, NoLostWakeup, Justified;
  }

  lemma PasswordWonKeepsResult(setup: Setup, s: State)
    requires Inv(setup, s) && PasswordWonNext(s).Some?
    ensures var n := PasswordWonNext(s).value;
            StatusIsTheChilds(n) && (n.main.Returned? ==> Justified(setup, n, n.main.code))
  {
    hide MutexIsHeldByItsHolder, NoLostWakeup;
  }

  lemma ChildWonKeepsThreads(setup: Setup, s: State)
    requires Inv(setup, s) && ChildWonNext(setup, s).Some?
    ensures var n := ChildWonNext(setup, s).value;
            MutexIsHeldByItsHolder(n) && ConfirmationIsJustified(n) && NoLostWakeup(n)
  {
    hide BranchesMatch, StatusIsTheChilds, Justified, TasksMatchTheProgram;
  }

  lemma ChildWonKeepsTasks(setup: Setup, s: State)
    requires Inv(setup, s) && ChildWonNext(setup, s).Some?
    ensures TasksMatchTheProgram(setup, ChildWonNext(setup, s).value)
  {
    hide MutexIsHeldByItsHolder, ConfirmationIsJustified, NoLostWakeup, StatusIsTheChilds, Justified;
  }

  lemma ChildWonKeepsBranches(setup: Setup, s: State)
    requires Inv(setup, s) && ChildWonNext(setup, s).Some?
    ensures BranchesMatch(setup, ChildWonNext(setup, s).value)
  {
    hide MutexIsHeldByItsHolder, NoLostWakeup, Justified;
  }

  lemma ChildWonKeepsStatus(setup: Setup, s: State)
    requires Inv(setup, s) && ChildWonNext(setup, s).Some?
    ensures StatusIsTheChilds(ChildWonNext(setup, s).value)
  {
    hide MutexIsHeldByItsHolder, ConfirmationIsJustified, NoLostWakeup, BranchesMatch, Justified;
  }

  lemma ChildWonKeepsResult(setup: Setup, s: State)
    requires Inv(setup, s) && ChildWonNext(setup, s).Some?
    ensures var n := ChildWonNext(setup, s).value; n.main.Returned? ==> Justified(setup, n, n.main.code)
  {
    hide MutexIsHeldByItsHolder, NoLostWakeup;
  }

  lemma WaiterKeepsThreads(setup: Setup, s: State, a: Action)
    requires Inv(setup, s) && a.WaiterStep? && Next(setup, s, a).Some?
    ensures var n := Next(setup, s, a).value;
            MutexIsHeldByItsHolder(n) && ConfirmationIsJustified(n) && NoLostWakeup(n)
  {
    hide BranchesMatch, StatusIsTheChilds, Justified, MainNext, PasswordNext;
  }

  lemma WaiterKeepsTasks(setup: Setup, s: State, a: Action)
    requires Inv(setup, s) && a.WaiterStep? && Next(setup, s, a).Some?
    ensures var n := Next(setup, s, a).value; TasksMatchTheProgram(setup, n) && BranchesMatch(setup, n)
  {
    hide MutexIsHeldByItsHolder, NoLostWakeup, StatusIsTheChilds, Justified, MainNext, PasswordNext;
  }

  lemma WaiterKeepsResult(setup: Setup, s: State, a: Action)
    requires Inv(setup, s) && a.WaiterStep? && Next(setup, s, a).Some?
    ensures var n := Next(setup, s, a).value;
            StatusIsTheChilds(n) && (n.main.Returned? ==> Justified(setup, n, n.main.code))
  {
    hide MutexIsHeldByItsHolder, NoLostWakeup, MainNext, PasswordNext;
  }

  lemma PasswordKeepsThreads(setup: Setup, s: State, a: Action)
    requires Inv(setup, s) && a.PasswordStep? && Next(setup, s, a).Some?
    ensures var n := Next(setup, s, a).value;
            MutexIsHeldByItsHolder(n) && ConfirmationIsJustified(n) && NoLostWakeup(n)
  {
    hide BranchesMatch, StatusIsTheChilds, Justified, MainNext, WaiterNext;
  }

  lemma PasswordKeepsTasks(setup: Setup, s: State, a: Action)
    requires Inv(setup, s) && a.PasswordStep? && Next(setup, s, a).Some?
    ensures var n := Next(setup, s, a).value; TasksMatchTheProgram(setup, n) && BranchesMatch(setup, n)
  {
    hide MutexIsHeldByItsHolder, NoLostWakeup, StatusIsTheChilds, Justified, MainNext, WaiterNext;
  }

  lemma PasswordKeepsResult(setup: Setup, s: State, a: Action)
    requires Inv(setup, s) && a.PasswordStep? && Next(setup, s, a).Some?
    ensures var n := Next(setup, s, a).value;
            StatusIsTheChilds(n) && (n.main.Returned? ==> Justified(setup, n, n.main.code))
  {
    hide MutexIsHeldByItsHolder, NoLostWakeup, MainNext, WaiterNext;
  }

  lemma EnvironmentKeepsThreads(setup: Setup, s: State, a: Action)
    requires Inv(setup, s) && !a.MainStep? && !a.WaiterStep? && !a.PasswordStep? && Next(setup, s, a).Some?
    ensures var n := Next(setup, s, a).value;
            MutexIsHeldByItsHolder(n) && ConfirmationIsJustified(n) && NoLostWakeup(n)
  {
    hide BranchesMatch, StatusIsTheChilds, Justified, MainNext, WaiterNext, PasswordNext;
  }

  lemma EnvironmentKeepsTasks(setup: Setup, s: State, a: Action)
    requires Inv(setup, s) && !a.MainStep? && !a.WaiterStep? && !a.PasswordStep? && Next(setup, s, a).Some?
    ensures var n := Next(setup, s, a).value; TasksMatchTheProgram(setup, n) && BranchesMatch(setup, n)
  {
    hide MutexIsHeldByItsHolder, NoLostWakeup, StatusIsTheChilds, Justified, MainNext, WaiterNext, PasswordNext;
  }

  lemma EnvironmentKeepsResult(setup: Setup, s: State, a: Action)
    requires Inv(setup, s) && !a.MainStep? && !a.WaiterStep? && !a.PasswordStep? && Next(setup, s, a).Some?
    ensures var n := Next(setup, s, a).value;
            StatusIsTheChilds(n) && (n.main.Returned? ==> Justified(setup, n, n.main.code))
  {
    hide MutexIsHeldByItsHolder, NoLostWakeup, MainNext, WaiterNext, PasswordNext;
  }

  lemma MainKeepsInv(setup: Setup, s: State)
    requires Inv(setup, s) && MainNext(setup, s).Some?
    ensures Inv(setup, MainNext(setup, s).value)
  {
    hide MutexIsHeldByItsHolder, ConfirmationIsJustified, NoLostWakeup, TasksMatchTheProgram, BranchesMatch,
         StatusIsTheChilds, Justified, Prelude, PasswordWon, PreludeNext, PasswordWonNext, ChildWonNext;
    if Prelude(s.main) {
      PreludeKeepsThreads(setup, s);
      PreludeKeepsTasks(setup, s);
      PreludeKeepsBranches(setup, s);
      PreludeKeepsStatus(setup, s);
      PreludeKeepsResult(setup, s);
    } else if PasswordWon(s.main) {
      PasswordWonKeepsThreads(setup, s);
      PasswordWonKeepsTasks(setup, s);
      PasswordWonKeepsBranches(setup, s);
      PasswordWonKeepsResult(setup, s);
    } else {
      ChildWonKeepsThreads(setup, s);
      ChildWonKeepsTasks(setup, s);
      ChildWonKeepsBranches(setup, s);
      ChildWonKeepsStatus(setup, s);
      ChildWonKeepsResult(setup, s);
    }
  }

  lemma StepKeepsInv(setup: Setup, s: State, a: Action)
    requires Inv(setup, s) && Next(setup, s, a).Some?
    ensures Inv(setup, Next(setup, s, a).value)
  {
    hide MutexIsHeldByItsHolder, ConfirmationIsJustified, NoLostWakeup, TasksMatchTheProgram, BranchesMatch,
         StatusIsTheChilds, Justified, MainNext, WaiterNext, PasswordNext;
    if a.MainStep? {
      MainKeepsInv(setup, s);
    } else if a.WaiterStep? {
      WaiterKeepsThreads(setup, s, a);
      WaiterKeepsTasks(setup, s, a);
      WaiterKeepsResult(setup, s, a);
    } else if a.PasswordStep? {
      PasswordKeepsThreads(setup, s, a);
      PasswordKeepsTasks(setup, s, a);
      PasswordKeepsResult(setup, s, a);
    } else {
      EnvironmentKeepsThreads(setup, s, a);
      EnvironmentKeepsTasks(setup, s, a);
      EnvironmentKeepsResult(setup, s, a);
    }
  }

  // ----------------------------------------------------------- over whole runs

  lemma {:induction false} RunKeepsInv(setup: Setup, s: State, actions: seq<Action>)
    requires Inv(setup, s) && Run(setup, s, actions).Some?
    ensures Inv(setup, Run(setup, s, actions).value)
    decreases actions
  {
    hide Inv, Next;
    if actions != [] {
      StepKeepsInv(setup, s, actions[0]);
      RunKeepsInv(setup, Next(setup, s, actions[0]).value, actions[1..]);
    }
  }

  lemma InitialInv(setup: Setup)
    ensures Inv(setup, INITIAL)
  {
  }

  lemma ReachableInv(setup: Setup, actions: seq<Action>)
    requires Run(setup, INITIAL, actions).Some?
    ensures Inv(setup, Run(setup, INITIAL, actions).value)
  {
    hide Inv, Run;
    InitialInv(setup);
    RunKeepsInv(setup, INITIAL, actions);
  }

  lemma StepWritesOnce(setup: Setup, s: State, a: Action)
    requires s.confirmation != Unset && Next(setup, s, a).Some?
    ensures Next(setup, s, a).value.confirmation == s.confirmation
  {
  }

  /** Once set, confirmation_type never changes again. */
  lemma {:induction false} ConfirmationIsWriteOnce(setup: Setup, s: State, actions: seq<Action>)
    requires s.confirmation != Unset && Run(setup, s, actions).Some?
    ensures Run(setup, s, actions).value.confirmation == s.confirmation
    decreases actions
  {
    hide Next;
    if actions != [] {
      StepWritesOnce(setup, s, actions[0]);
      ConfirmationIsWriteOnce(setup, Next(setup, s, actions[0]).value, actions[1..]);
    }
  }

  /** In every reachable state: no lost wakeup; get() finds a started, stopped task
      with a value; main reads confirmation_type without the lock only after it was set. */
  lemma SafeEverywhere(setup: Setup, actions: seq<Action>)
    requires Run(setup, INITIAL, actions).Some?
    ensures var s := Run(setup, INITIAL, actions).value;
            && (s.main.Asleep? && s.confirmation != Unset ==> NotifyToCome(s))
            && (s.main.GetStatus? ==> MayGet(s.childTask) && s.waiter.WDone?)
            && (s.main.GetPass? || s.main.GetPassAfterFailure? ==> MayGet(s.passTask) && s.password.PDone?)
            && (s.main.Branch? ==> s.confirmation != Unset)
            && (s.mutex == Some(MainThread) <==> s.main.Test? || s.main.Unlock?)
            && (s.main.JoinChildAfterPass? || s.main.StopPass? || s.main.GetPass? ==> s.signalled != NoSignal)
            && (s.confirmation == UbuntuHello ==> s.signalled == NoSignal)
  {
    hide Run;
    ReachableInv(setup, actions);
  }

  /** Whether identify asks for a password beside the face. */
  lemma AskPassExactly(setup: Setup)
    ensures AskPass(setup) <==> setup.askAuthTok && (setup.workaround == Input || setup.workaround == Native)
  {
  }

  /** What each result means, both ways, for every interleaving and every behaviour of child and prompt. */
  lemma ResultsMean(setup: Setup, actions: seq<Action>, code: PamCode)
    requires Run(setup, INITIAL, actions).Some?
    requires Run(setup, INITIAL, actions).value.main == Returned(code)
    ensures var s := Run(setup, INITIAL, actions).value;
            && (code == PamSuccess <==> s.confirmation == UbuntuHello && s.child == Some(Exited(0)))
            && (code == PamIgnore <==>
                  && s.password.PDone?
                  && (|| (s.password.result == PamSuccess
                          && (s.confirmation == Pam || (s.child.Some? && FailedExit(s.child.value) && AskPass(setup))))
                      || (s.password.result == PamIgnore && s.confirmation == Pam)))
  {
    hide Run;
    ReachableInv(setup, actions);
  }

  /** The code of every return: who won, how compare ended, and what the prompt answered. */
  lemma ResultIsExact(setup: Setup, actions: seq<Action>, code: PamCode)
    requires Run(setup, INITIAL, actions).Some?
    requires Run(setup, INITIAL, actions).value.main == Returned(code)
    ensures var s := Run(setup, INITIAL, actions).value;
            var asked := setup.askAuthTok && setup.workaround != Off;
            && s.confirmation != Unset && s.child.Some?
            && (s.confirmation == Pam ==>
                  asked && s.password.PDone? && code == if s.password.result == PamSuccess then PamIgnore else s.password.result)
            && (s.confirmation == UbuntuHello && s.child == Some(Exited(0)) ==> code == PamSuccess)
            && (s.confirmation == UbuntuHello && s.child.value.Signaled? ==> code == PamAuthErr)
            && (s.confirmation == UbuntuHello && s.child.value.Exited? && s.child.value.code != 0 ==>
                  && (asked ==> s.password.PDone?)
                  && code == if asked && s.password.result == PamSuccess then PamIgnore else PamAuthErr)
  {
    hide Run;
    ReachableInv(setup, actions);
  }

  /** When identify returns, both threads are joined, cancelled or were never started,
      so the destructors of the tasks have nothing left to wait for. */
  lemma NothingLeftRunning(setup: Setup, actions: seq<Action>)
    requires Run(setup, INITIAL, actions).Some?
    requires Run(setup, INITIAL, actions).value.main.Returned?
    ensures var s := Run(setup, INITIAL, actions).value;
            && s.childTask == JOINED && s.waiter.WDone? && s.mutex == None
            && (if setup.askAuthTok && setup.workaround != Off then s.passTask == JOINED && PasswordEnded(s.password)
                else s.passTask == NEVER_STARTED && s.password.PIdle?)
  {
    hide Run;
    ReachableInv(setup, actions);
    match Run(setup, INITIAL, actions).value.mutex {
      case None =>
      case Some(MainThread) =>
      case Some(WaiterThread) =>
      case Some(PassThread) =>
    }
  }

  /** A run grows by one step at its end. */
  lemma {:induction false} Extend(setup: Setup, start: State, run: seq<Action>, s: State, a: Action)
    returns (longer: seq<Action>, next: State)
    requires Run(setup, start, run) == Some(s) && Next(setup, s, a).Some?
    ensures next == Next(setup, s, a).value
    ensures longer == run + [a] && Run(setup, start, longer) == Some(next)
    decreases run
  {
    hide Next;
    longer, next := run + [a], Next(setup, s, a).value;
    if run == [] {
      assert longer[1..] == [];
    } else {
      var rest, end := Extend(setup, Next(setup, start, run[0]).value, run[1..], s, a);
      assert longer[1..] == rest;
    }
  }

  lemma PromptIsRefused() returns (run: seq<Action>, s: State)
    ensures Run(Setup(true, Input), INITIAL, run) == Some(s)
    ensures s == INITIAL.(main := Lock, childTask := STARTED, waiter := WWaitpid, passTask := STARTED,
                          password := PLock(PamIgnore))
  {
    hide Run, WaiterNext, PasswordNext;
    var setup := Setup(true, Input);
    run, s := [], INITIAL;
    NoSteps(setup);
    run, s := Extend(setup, INITIAL, run, s, MainStep);
    run, s := Extend(setup, INITIAL, run, s, MainStep);
    run, s := Extend(setup, INITIAL, run, s, PromptAnswers(PamIgnore));
  }

  lemma PasswordWrites(run: seq<Action>, s: State) returns (longer: seq<Action>, next: State)
    requires Run(Setup(true, Input), INITIAL, run) == Some(s)
    requires s.password == PLock(PamIgnore) && s.mutex == None && s.main.Lock? && s.confirmation == Unset
    ensures Run(Setup(true, Input), INITIAL, longer) == Some(next)
    ensures next == s.(password := PDone(PamIgnore), confirmation := Pam)
  {
    hide Run, WaiterNext, MainNext;
    var setup := Setup(true, Input);
    longer, next := Extend(setup, INITIAL, run, s, PasswordStep);
    longer, next := Extend(setup, INITIAL, longer, next, PasswordStep);
    longer, next := Extend(setup, INITIAL, longer, next, PasswordStep);
    longer, next := Extend(setup, INITIAL, longer, next, PasswordStep);
  }

  lemma MainSees(run: seq<Action>, s: State) returns (longer: seq<Action>, next: State)
    requires Run(Setup(true, Input), INITIAL, run) == Some(s)
    requires s.mutex == None && s.main.Lock? && s.confirmation == Pam
    ensures Run(Setup(true, Input), INITIAL, longer) == Some(next)
    ensures next == s.(main := Branch)
  {
    hide Run, WaiterNext, PasswordNext;
    var setup := Setup(true, Input);
    longer, next := Extend(setup, INITIAL, run, s, MainStep);
    longer, next := Extend(setup, INITIAL, longer, next, MainStep);
    longer, next := Extend(setup, INITIAL, longer, next, MainStep);
  }

  lemma ChildIsReaped(run: seq<Action>, s: State) returns (longer: seq<Action>, next: State)
    requires Run(Setup(true, Input), INITIAL, run) == Some(s)
    requires s.child == None && s.mutex == None && s.waiter == WWaitpid && s.main.Branch? && s.confirmation == Pam
    ensures Run(Setup(true, Input), INITIAL, longer) == Some(next)
    ensures next == s.(child := Some(Signaled(15)), waiter := WDone(Signaled(15)))
  {
    hide Run, MainNext;
    var setup := Setup(true, Input);
    longer, next := Extend(setup, INITIAL, run, s, ChildEnds(Signaled(15)));
    longer, next := Extend(setup, INITIAL, longer, next, WaiterStep);
    longer, next := Extend(setup, INITIAL, longer, next, WaiterStep);
    longer, next := Extend(setup, INITIAL, longer, next, WaiterStep);
    longer, next := Extend(setup, INITIAL, longer, next, WaiterStep);
    longer, next := Extend(setup, INITIAL, longer, next, WaiterStep);
  }

  lemma ReapedThenJoin(run: seq<Action>, s: State) returns (longer: seq<Action>, next: State)
    requires Run(Setup(true, Input), INITIAL, run) == Some(s)
    requires s.main.Branch? && s.confirmation == Pam && s.waiter.WDone?
    ensures Run(Setup(true, Input), INITIAL, longer) == Some(next)
    ensures next == s.(main := JoinChildAfterPass, signalled := SigTerm)
  {
    hide Run, WaiterNext, PasswordNext;
    longer, next := Extend(Setup(true, Input), INITIAL, run, s, MainStep);
    longer, next := Extend(Setup(true, Input), INITIAL, longer, next, MainStep);
    longer, next := Extend(Setup(true, Input), INITIAL, longer, next, MainStep);
  }

  /** PAM_IGNORE is not proof of a typed password: pam_get_authtok's own failure code is passed on. */
  lemma IgnoreWithoutPassword() returns (run: seq<Action>, s: State)
    ensures Run(Setup(true, Input), INITIAL, run) == Some(s)
    ensures s.main == Returned(PamIgnore) && s.password == PDone(PamIgnore)
  {
    hide Run, WaiterNext, PasswordNext;
    run, s := PromptIsRefused();
    run, s := PasswordWrites(run, s);
    run, s := MainSees(run, s);
    run, s := ChildIsReaped(run, s);
    run, s := ReapedThenJoin(run, s);
    run, s := Extend(Setup(true, Input), INITIAL, run, s, MainStep);
    run, s := Extend(Setup(true, Input), INITIAL, run, s, MainStep);
    run, s := Extend(Setup(true, Input), INITIAL, run, s, MainStep);
  }

  lemma NoSteps(setup: Setup)
    ensures Run(setup, INITIAL, []) == Some(INITIAL)
  {
  }

  // -------------------------------------------------- progress and termination

  function WaiterRank(w: Waiter): nat
  {
    match w
    case WIdle => 8
    case WWaitpid => 7
    case WLock(_) => 6
    case WWrite(_) => 5
    case WUnlock(_) => 4
    case WNotify(_) => 3
    case WDone(_) => 0
  }

  function PasswordRank(p: Password): nat
  {
    match p
    case PIdle => 8
    case PPrompt => 7
    case PLock(_) => 6
    case PWrite(_) => 5
    case PUnlock(_) => 4
    case PNotify(_) => 3
    case PDone(_) => 0
    case PCancelled => 0
  }

  function MainRank(m: Main): nat
  {
    match m
    case ActivateChild => 34
    case ActivatePass => 33
    case Lock => 32
    case Test => 31
    case Asleep => 30
    case Unlock => 29
    case Branch => 28
    case Terminate => 6
    case AwaitTerm => 5
    case Kill => 4
    case JoinChildAfterPass => 3
    case StopPass => 2
    case GetPass => 1
    case JoinChild => 27
    case GetStatus => 26
    case Decide(_) => 25
    case StopPassAfterFailure(_) => 2
    case GetPassAfterFailure(_) => 1
    case Dismiss(_) => 24
    case PressEnter(_, left) => 3 + left
    case CancelPass(_) => 3
    case JoinPass(_) => 2
    case Finish(_) => 1
    case Returned(_) => 0
  }

  /** Steps still to come, spurious wakeups aside. */
  function Rank(s: State): nat
  {
    (if s.child == None then 1 else 0) + WaiterRank(s.waiter) + PasswordRank(s.password)
    + MainRank(s.main)
  }

  /** main's own steps leave the other threads alone, but for starting them. */
  lemma MainStartsThreads(setup: Setup, s: State)
    requires MainNext(setup, s).Some?
    ensures var n := MainNext(setup, s).value;
            && n.child == s.child
            && n.waiter == (if s.main.ActivateChild? then WWaitpid else s.waiter)
            && n.password == (if s.main.ActivatePass? && AskPass(setup) then PPrompt else s.password)
  {
  }

  lemma PreludeAdvances(setup: Setup, s: State)
    requires PreludeNext(setup, s).Some?
    ensures MainRank(PreludeNext(setup, s).value.main) < MainRank(s.main)
  {
  }

  lemma PasswordWonAdvances(s: State)
    requires PasswordWonNext(s).Some?
    ensures MainRank(PasswordWonNext(s).value.main) < MainRank(s.main)
  {
  }

  lemma ChildWonAdvances(setup: Setup, s: State)
    requires ChildWonNext(setup, s).Some?
    ensures MainRank(ChildWonNext(setup, s).value.main) < MainRank(s.main)
  {
  }

  lemma MainAdvances(setup: Setup, s: State)
    requires MainNext(setup, s).Some?
    ensures MainRank(MainNext(setup, s).value.main) < MainRank(s.main)
  {
    hide MainRank, Prelude, PasswordWon, PreludeNext, PasswordWonNext, ChildWonNext;
    if Prelude(s.main) {
      PreludeAdvances(setup, s);
    } else if PasswordWon(s.main) {
      PasswordWonAdvances(s);
    } else {
      ChildWonAdvances(setup, s);
    }
  }

  lemma MainLowersRank(setup: Setup, s: State)
    requires TasksMatchTheProgram(setup, s) && MainNext(setup, s).Some?
    ensures Rank(MainNext(setup, s).value) < Rank(s)
  {
    hide MainNext, MainRank;
    MainStartsThreads(setup, s);
    MainAdvances(setup, s);
  }

  lemma WaiterLowersRank(s: State)
    requires WaiterNext(s).Some?
    ensures Rank(WaiterNext(s).value) < Rank(s)
  {
  }

  lemma PasswordLowersRank(s: State)
    requires PasswordNext(s).Some?
    ensures Rank(PasswordNext(s).value) < Rank(s)
  {
  }

  lemma OthersLowerRank(setup: Setup, s: State, a: Action)
    requires !a.MainStep? && Next(setup, s, a).Some?
    ensures if a.SpuriousWakeup? then Rank(Next(setup, s, a).value) == Rank(s) + 2
            else Rank(Next(setup, s, a).value) < Rank(s)
  {
    hide MainNext, WaiterNext, PasswordNext;
    if a.WaiterStep? {
      WaiterLowersRank(s);
    } else if a.PasswordStep? {
      PasswordLowersRank(s);
    }
  }

  lemma StepLowersRank(setup: Setup, s: State, a: Action)
    requires Inv(setup, s) && Next(setup, s, a).Some?
    ensures if a.SpuriousWakeup? then Rank(Next(setup, s, a).value) == Rank(s) + 2
            else Rank(Next(setup, s, a).value) < Rank(s)
  {
    hide MutexIsHeldByItsHolder, ConfirmationIsJustified, NoLostWakeup, BranchesMatch, StatusIsTheChilds, Justified,
         TasksMatchTheProgram, MainNext, WaiterNext, PasswordNext, Rank;
    if a.MainStep? {
      MainLowersRank(setup, s);
    } else {
      OthersLowerRank(setup, s, a);
    }
  }

  function Spurious(actions: seq<Action>): nat
  {
    if actions == [] then 0 else (if actions[0].SpuriousWakeup? then 1 else 0) + Spurious(actions[1..])
  }

  /** A run is as long as its spurious wakeups allow, and no longer. */
  lemma {:induction false} RunsAreBounded(setup: Setup, s: State, actions: seq<Action>)
    requires Inv(setup, s) && Run(setup, s, actions).Some?
    ensures |actions| + Rank(Run(setup, s, actions).value) <= Rank(s) + 3 * Spurious(actions)
    decreases actions
  {
    hide Inv, Next, Rank;
    if actions != [] {
      StepKeepsInv(setup, s, actions[0]);
      StepLowersRank(setup, s, actions[0]);
      RunsAreBounded(setup, Next(setup, s, actions[0]).value, actions[1..]);
    }
  }

  /** A step that is possible in s and needs no spurious wakeup. */
  function Helpful(s: State): Action
  {
    if s.child == None then ChildEnds(Exited(11))
    else
      match s.mutex
      case Some(WaiterThread) => WaiterStep
      case Some(PassThread) => PasswordStep
      case Some(MainThread) => MainStep
      case None =>
        if !s.waiter.WDone? && !s.waiter.WIdle? then WaiterStep
        else if s.password.PPrompt? then PromptAnswers(PamAuthErr)
        else if !PasswordEnded(s.password) && !s.password.PIdle? then PasswordStep
        else if s.main.PressEnter? && s.main.left > 0 && s.password.PIdle? then WaitTimesOut
        else MainStep
  }

  /** No deadlock: until identify returns, something other than a spurious wakeup can happen. */
  lemma NoDeadlock(setup: Setup, s: State)
    requires Inv(setup, s) && !s.main.Returned?
    ensures Next(setup, s, Helpful(s)).Some? && !Helpful(s).SpuriousWakeup?
  {
    hide StatusIsTheChilds, Justified;
  }

  /** From every reachable state a cooperating child and prompt bring identify to an end. */
  lemma {:induction false} CanAlwaysReturn(setup: Setup, s: State) returns (actions: seq<Action>)
    requires Inv(setup, s)
    ensures Run(setup, s, actions).Some? && Run(setup, s, actions).value.main.Returned? && Spurious(actions) == 0
    decreases Rank(s)
  {
    hide Inv, Next, Rank;
    actions := [];
    if !s.main.Returned? {
      var a := Helpful(s);
      NoDeadlock(setup, s);
      StepKeepsInv(setup, s, a);
      StepLowersRank(setup, s, a);
      var rest := CanAlwaysReturn(setup, Next(setup, s, a).value);
      actions := [a] + rest;
      assert actions[1..] == rest;
    }
  }

  // ------------------------------------------- returning without anybody's help

  /** What can be done when compare ends only by SIGKILL and nobody answers the prompt. */
  function Unaided(s: State): Action
  {
    match s.mutex
    case Some(WaiterThread) => WaiterStep
    case Some(PassThread) => PasswordStep
    case Some(MainThread) => MainStep
    case None =>
      if s.child == None && s.signalled == SigKill then ChildEnds(Signaled(9))
      else if s.child.Some? && !s.waiter.WDone? && !s.waiter.WIdle? then WaiterStep
      else if !s.password.PPrompt? && !PasswordEnded(s.password) && !s.password.PIdle? then PasswordStep
      else if s.password.PPrompt? && s.cancelRequested then CancelDelivered
      else if s.main.AwaitTerm? && s.child == None then WaitTimesOut
      else if s.main.PressEnter? && s.main.left > 0 && s.password.PIdle? then WaitTimesOut
      else MainStep
  }

  /** The password has won; or compare has, in a way that ends the attempt, and no prompt has to be answered first. */
  predicate NeedsNobody(setup: Setup, s: State)
  {
    || s.confirmation == Pam
    || (s.confirmation == UbuntuHello && s.child.Some? && !(FailedExit(s.child.value) && AskPass(setup))
        && (setup.workaround == Native || !AskPass(setup)))
  }

  /** No step of the run is an answer to the prompt, and compare ends by SIGKILL if at all. */
  predicate NobodyHelps(setup: Setup, s: State, actions: seq<Action>)
    decreases actions
  {
    actions == [] ||
    (!actions[0].PromptAnswers? && (actions[0].ChildEnds? ==> s.signalled == SigKill)
     && Next(setup, s, actions[0]).Some? && NobodyHelps(setup, Next(setup, s, actions[0]).value, actions[1..]))
  }

  lemma UnaidedIsPossible(setup: Setup, s: State)
    requires Inv(setup, s) && NeedsNobody(setup, s) && !s.main.Returned?
    ensures Next(setup, s, Unaided(s)).Some? && !Unaided(s).SpuriousWakeup? && !Unaided(s).PromptAnswers?
    ensures Unaided(s).ChildEnds? ==> s.signalled == SigKill
  {
    hide Justified;
  }

  lemma StillNeedsNobody(setup: Setup, s: State, a: Action)
    requires NeedsNobody(setup, s) && Next(setup, s, a).Some?
    ensures NeedsNobody(setup, Next(setup, s, a).value)
  {
  }

  /** Once the password has won, identify returns even if compare ignores SIGTERM; and once compare has won it
      returns with the native workaround, or without a prompt, although nobody types anything. */
  lemma {:induction false} ReturnsUnaided(setup: Setup, s: State) returns (actions: seq<Action>)
    requires Inv(setup, s) && NeedsNobody(setup, s)
    ensures Run(setup, s, actions).Some? && Run(setup, s, actions).value.main.Returned? && NobodyHelps(setup, s, actions)
    decreases Rank(s)
  {
    hide Inv, Next, Rank, Unaided, NeedsNobody;
    actions := [];
    if !s.main.Returned? {
      var a := Unaided(s);
      UnaidedIsPossible(setup, s);
      StepKeepsInv(setup, s, a);
      StepLowersRank(setup, s, a);
      StillNeedsNobody(setup, s, a);
      var rest := ReturnsUnaided(setup, Next(setup, s, a).value);
      actions := [a] + rest;
      assert actions[0] == a && actions[1..] == rest;
    }
  }

  // --------------------------------------------------- a recognised face gets in

  lemma ChildIsWriteOnce(setup: Setup, s: State, actions: seq<Action>)
    requires s.child.Some? && Run(setup, s, actions).Some?
    ensures Run(setup, s, actions).value.child == s.child
    decreases actions
  {
    if actions != [] {
      ChildIsWriteOnce(setup, Next(setup, s, actions[0]).value, actions[1..]);
    }
  }

  /** However the child ends, a run that gets as far as its waiter having written first. */
  lemma ChildWins(setup: Setup, status: WaitStatus) returns (run: seq<Action>, s: State)
    ensures Run(setup, INITIAL, run) == Some(s)
    ensures s.confirmation == UbuntuHello && s.child == Some(status)
  {
    hide Run, PasswordNext;
    run, s := [], INITIAL;
    NoSteps(setup);
    run, s := Extend(setup, INITIAL, run, s, MainStep);
    run, s := Extend(setup, INITIAL, run, s, ChildEnds(status));
    run, s := Extend(setup, INITIAL, run, s, WaiterStep);
    run, s := Extend(setup, INITIAL, run, s, WaiterStep);
    run, s := Extend(setup, INITIAL, run, s, WaiterStep);
  }

  lemma {:induction false} RunsJoin(setup: Setup, start: State, first: seq<Action>, s: State, rest: seq<Action>)
    requires Run(setup, start, first) == Some(s)
    ensures Run(setup, start, first + rest) == Run(setup, s, rest)
    decreases first
  {
    hide Next;
    if first == [] {
      assert first + rest == rest;
    } else {
      assert (first + rest)[0] == first[0] && (first + rest)[1..] == first[1..] + rest;
      RunsJoin(setup, Next(setup, start, first[0]).value, first[1..], s, rest);
    }
  }

  /** When compare exits 0 and its waiter is first, identify can always go on to PAM_SUCCESS, and to nothing else. */
  lemma SuccessIsReached(setup: Setup) returns (actions: seq<Action>)
    ensures Run(setup, INITIAL, actions).Some?
    ensures Run(setup, INITIAL, actions).value.main == Returned(PamSuccess)
    ensures Run(setup, INITIAL, actions).value.child == Some(Exited(0))
  {
    hide Run, Next, Inv;
    var first, s := ChildWins(setup, Exited(0));
    ReachableInv(setup, first);
    var rest := CanAlwaysReturn(setup, s);
    ConfirmationIsWriteOnce(setup, s, rest);
    ChildIsWriteOnce(setup, s, rest);
    actions := first + rest;
    RunsJoin(setup, INITIAL, first, s, rest);
    var end := Run(setup, INITIAL, actions).value;
    ResultsMean(setup, actions, end.main.code);
  }

  // ------------------------------------------------------------ the Enter presses

  /** One Enter press goes before every wait for the prompt, so timed-out waits count the presses repeated. */
  function Timeouts(actions: seq<Action>): nat
  {
    if actions == [] then 0 else (if actions[0] == WaitTimesOut then 1 else 0) + Timeouts(actions[1..])
  }

  /** Before, in the middle of, or after pressing Enter, with so many retries left, while the prompt is pending. */
  predicate Pressing(s: State, status: WaitStatus, left: nat)
  {
    && MustJoin(s.passTask)
    && (|| (s.main == Dismiss(status) && left == 5)
        || s.main == PressEnter(status, left)
        || (s.main == JoinPass(status) && left == 0))
  }

  lemma PressingStep(setup: Setup, s: State, a: Action, status: WaitStatus, left: nat)
    requires setup.workaround == Input && Pressing(s, status, left) && a != UinputFails
    requires Next(setup, s, a).Some? && !PasswordEnded(Next(setup, s, a).value.password)
    ensures var now := if a == WaitTimesOut then left - 1 else left;
            now >= 0 && Pressing(Next(setup, s, a).value, status, now)
  {
  }

  lemma {:induction false} EndedStaysEnded(setup: Setup, s: State, actions: seq<Action>)
    requires Run(setup, s, actions).Some? && PasswordEnded(s.password) && Inv(setup, s)
    ensures PasswordEnded(Run(setup, s, actions).value.password)
    decreases actions
  {
    hide Inv;
    if actions != [] {
      StepKeepsInv(setup, s, actions[0]);
      EndedOnce(setup, s, actions[0]);
      EndedStaysEnded(setup, Next(setup, s, actions[0]).value, actions[1..]);
    }
  }

  lemma EndedOnce(setup: Setup, s: State, a: Action)
    requires Inv(setup, s) && PasswordEnded(s.password) && Next(setup, s, a).Some?
    ensures PasswordEnded(Next(setup, s, a).value.password)
  {
  }

  /** With the Input workaround a prompt that stays unanswered is given up to the user only after five retries,
      unless the device fails. */
  lemma {:induction false} EnterIsRetried(setup: Setup, s: State, actions: seq<Action>, status: WaitStatus, left: nat)
    requires setup.workaround == Input && Inv(setup, s) && Pressing(s, status, left)
    requires Run(setup, s, actions).Some? && UinputFails !in actions
    requires var end := Run(setup, s, actions).value; end.main == JoinPass(status) && !PasswordEnded(end.password)
    ensures Timeouts(actions) == left
    decreases actions
  {
    hide Inv, Next, PasswordEnded, Pressing;
    if actions == [] {
      NoRetriesLeft(s, status, left);
    } else {
      var n := Next(setup, s, actions[0]).value;
      StepKeepsInv(setup, s, actions[0]);
      if PasswordEnded(n.password) {
        EndedStaysEnded(setup, n, actions[1..]);
      }
      PressingStep(setup, s, actions[0], status, left);
      EnterIsRetried(setup, n, actions[1..], status, if actions[0] == WaitTimesOut then left - 1 else left);
    }
  }

  lemma NoRetriesLeft(s: State, status: WaitStatus, left: nat)
    requires Pressing(s, status, left) && s.main == JoinPass(status)
    ensures left == 0
  {
  }
}
