/** How compare.py ends (ubuntu-hello/src/compare.py): exit(code) on the main program,
    the signal handler on top of it at any point and nested to any depth, and the
    session-idle watcher that sends the signal. */
module Shutdown {
  import opened Options

  /** What a call of cleanup() returns to. */
  datatype Then = ThenSysExit | ThenEnd | ThenAbort

  /** Where one activation stands. The first activation is the main program, every
      other one a signal handler interrupting the one below it. */
  datatype Pc =
    | HandlerCheck             // if _cleaned_up: return
    | HandlerNotify            // _notify("cancelled")
    | Check(after: Then)       // cleanup(): if _cleaned_up: return
    | SetFlag(after: Then)     // _cleaned_up = True
    | Release(after: Then)     // video_capture.release()
    | Forget(after: Then)      // video_capture = None
    | StopOverlay(after: Then)
    | SysExit                  // sys.exit(code); atexit runs exit() again if the overlay was started
    | End

  datatype State = State(
    cleanedUp: bool,
    setBy: Option<nat>,        // the depth of the activation that set the flag
    cameraOpen: bool,
    releases: nat,
    overlayUp: bool,
    stack: seq<Pc>,
    exitCode: Option<int>)

  /** code is what the program decided; viaExit: through exit(code) rather than by the
      SystemExit a rubberstamp verdict raises. */
  datatype Program = Program(code: int, viaExit: bool, overlay: bool, cameraOpen: bool)

  function Initial(p: Program): State
  {
    State(false, None, p.cameraOpen, 0, p.overlay, [if p.viaExit then Check(ThenSysExit) else SysExit], None)
  }

  datatype Action = Step | Signal

  function Goto(s: State, pc: Pc): State
    requires s.stack != []
  {
    s.(stack := s.stack[..|s.stack| - 1] + [pc])
  }

  function AfterCleanup(s: State, after: Then): State
    requires s.stack != []
  {
    match after
    case ThenSysExit => Goto(s, SysExit)
    case ThenEnd => Goto(s, End)
    case ThenAbort => s.(exitCode := Some(12))
  }

  /** One step of the topmost activation, or the delivery of one more signal. */
  function Next(p: Program, s: State, a: Action): State
  {
    if s.exitCode.Some? || s.stack == [] then s
    else if a == Signal then s.(stack := s.stack + [HandlerCheck])
    else
      var top := |s.stack| - 1;
      match s.stack[top]
      case HandlerCheck => if s.cleanedUp then s.(stack := s.stack[..top]) else Goto(s, HandlerNotify)
      case HandlerNotify => Goto(s, Check(ThenAbort))
      case Check(after) => if s.cleanedUp then AfterCleanup(s, after) else Goto(s, SetFlag(after))
      case SetFlag(after) => Goto(s.(cleanedUp := true, setBy := Some(top)), Release(after))
      case Release(after) =>
        if s.cameraOpen then Goto(s.(releases := s.releases + 1), Forget(after)) else Goto(s, StopOverlay(after))
      case Forget(after) => Goto(s.(cameraOpen := false), StopOverlay(after))
      case StopOverlay(after) => AfterCleanup(s.(overlayUp := false), after)
      case SysExit => if p.overlay then Goto(s, Check(ThenEnd)) else s.(exitCode := Some(p.code))
      case End => s.(exitCode := Some(p.code))
  }

  function Run(p: Program, s: State, actions: seq<Action>): State
    decreases actions
  {
    if actions == [] then s else Run(p, Next(p, s, actions[0]), actions[1..])
  }

  // ------------------------------------------------------------- invariant

  predicate BeforeFlag(pc: Pc, depth: nat)
  {
    if depth == 0 then ((pc.Check? || pc.SetFlag?) && pc.after != ThenAbort) || pc.SysExit?
    else pc.HandlerCheck? || pc.HandlerNotify? || ((pc.Check? || pc.SetFlag?) && pc.after == ThenAbort)
  }

  predicate AfterFlag(pc: Pc, depth: nat)
  {
    if depth == 0 then
      ((pc.Release? || pc.Forget? || pc.StopOverlay?) && pc.after != ThenAbort)
      || pc.SysExit? || pc == Check(ThenEnd) || pc.End?
    else (pc.Release? || pc.Forget? || pc.StopOverlay?) && pc.after == ThenAbort
  }

  /** The releases that a finished cleanup leaves behind. */
  function Owed(p: Program): nat
  {
    if p.cameraOpen then 1 else 0
  }

  /** How far the activation that set the flag has come: with the camera, then with the overlay. */
  predicate CleanedAsDue(p: Program, s: State, owner: Pc)
  {
    && (if owner.Release? then s.releases == 0 && s.cameraOpen == p.cameraOpen
        else s.releases == Owed(p) && (s.cameraOpen ==> owner.Forget?) && (owner.Forget? ==> p.cameraOpen))
    && (s.exitCode.Some? || owner.Check? || owner.SysExit? || owner.End? ==> !s.overlayUp && !s.cameraOpen)
  }

  predicate Inv(p: Program, s: State)
  {
    && s.stack != []
    && (s.cleanedUp <==> s.setBy.Some?)
    && (!s.cleanedUp ==>
          && s.releases == 0 && s.cameraOpen == p.cameraOpen && s.overlayUp == p.overlay
          && forall i :: 0 <= i < |s.stack| ==> BeforeFlag(s.stack[i], i))
    && (s.cleanedUp ==>
          var o := s.setBy.value;
          && o < |s.stack|
          && (forall i :: o < i < |s.stack| ==> s.stack[i] == HandlerCheck)
          && AfterFlag(s.stack[o], o)
          && CleanedAsDue(p, s, s.stack[o])
          && (s.exitCode.Some? ==> !s.stack[o].Release?))
    && (s.exitCode.Some? && s.setBy.Some? ==> s.exitCode == Some(if s.setBy == Some(0) then p.code else 12))
    && (s.exitCode.Some? && s.setBy == None ==> s.exitCode == Some(p.code) && !p.viaExit && !p.overlay)
    && (p.viaExit && !s.cleanedUp ==> s.stack[0] == Check(ThenSysExit) || s.stack[0] == SetFlag(ThenSysExit))
  }

  /** The flag is set: from here on the topmost activation owns the cleanup. */
  lemma FlagIsSet(p: Program, s: State)
    requires Inv(p, s) && !s.cleanedUp && s.exitCode == None && s.stack[|s.stack| - 1].SetFlag?
    ensures Inv(p, Next(p, s, Step))
  {
    var top := |s.stack| - 1;
    assert BeforeFlag(s.stack[top], top);
  }

  lemma StepBeforeFlag(p: Program, s: State)
    requires Inv(p, s) && !s.cleanedUp && s.exitCode == None
    ensures Inv(p, Next(p, s, Step))
  {
    hide AfterFlag, CleanedAsDue;
    var top := |s.stack| - 1;
    assert BeforeFlag(s.stack[top], top);
    if s.stack[top].SetFlag? {
      FlagIsSet(p, s);
    }
  }

  /** A handler that finds the flag set is gone again, and leaves everything as it was. */
  lemma HandlerReturns(p: Program, s: State)
    requires Inv(p, s) && s.cleanedUp && s.exitCode == None && s.stack[|s.stack| - 1] == HandlerCheck
    ensures Inv(p, Next(p, s, Step))
  {
    hide BeforeFlag;
  }

  /** The activation that set the flag goes on: the camera, the overlay, the exit. */
  lemma OwnerGoesOn(p: Program, s: State)
    requires Inv(p, s) && s.cleanedUp && s.exitCode == None && s.stack[|s.stack| - 1] != HandlerCheck
    ensures Inv(p, Next(p, s, Step))
  {
    hide BeforeFlag;
    assert s.setBy == Some(|s.stack| - 1);
  }

  lemma StepAfterFlag(p: Program, s: State)
    requires Inv(p, s) && s.cleanedUp && s.exitCode == None
    ensures Inv(p, Next(p, s, Step))
  {
    hide Inv, Next;
    StackIsNotEmpty(p, s);
    if s.stack[|s.stack| - 1] == HandlerCheck {
      HandlerReturns(p, s);
    } else {
      OwnerGoesOn(p, s);
    }
  }

  lemma StackIsNotEmpty(p: Program, s: State)
    requires Inv(p, s)
    ensures s.stack != []
  {
  }

  lemma SignalKeepsInv(p: Program, s: State)
    requires Inv(p, s)
    ensures Inv(p, Next(p, s, Signal))
  {
    hide AfterFlag;
  }

  lemma StepKeepsInv(p: Program, s: State, a: Action)
    requires Inv(p, s)
    ensures Inv(p, Next(p, s, a))
  {
    hide Inv;
    if s.exitCode == None {
      if a == Signal {
        SignalKeepsInv(p, s);
      } else if s.cleanedUp {
        StepAfterFlag(p, s);
      } else {
        StepBeforeFlag(p, s);
      }
    }
  }

  lemma {:induction false} RunKeepsInv(p: Program, s: State, actions: seq<Action>)
    requires Inv(p, s)
    ensures Inv(p, Run(p, s, actions))
    decreases actions
  {
    hide Inv, Next;
    if actions != [] {
      StepKeepsInv(p, s, actions[0]);
      RunKeepsInv(p, Next(p, s, actions[0]), actions[1..]);
    }
  }

  lemma InitialInv(p: Program)
    ensures Inv(p, Initial(p))
  {
  }

  /** For every placement and nesting of signals: a run that has ended tried to release an open camera exactly once,
      unless a SystemExit from the stamps ended it with no overlay to clean up for; then not at all, and the camera
      is left to the end of the process. Before the end it tried at most once. */
  lemma ReleaseIsAttemptedExactly(p: Program, actions: seq<Action>)
    ensures var s := Run(p, Initial(p), actions);
            && s.releases <= (if p.cameraOpen then 1 else 0)
            && (s.exitCode.Some? ==> s.releases == if p.cameraOpen && s.cleanedUp then 1 else 0)
            && (s.exitCode.Some? ==> s.cameraOpen == (p.cameraOpen && !s.cleanedUp))
            && (s.exitCode.Some? && !s.cleanedUp ==> !p.viaExit && !p.overlay && s.exitCode == Some(p.code))
  {
    hide Run, Next;
    InitialInv(p);
    RunKeepsInv(p, Initial(p), actions);
  }

  /** However it ends, no overlay is left running. */
  lemma NoOverlayIsLeft(p: Program, actions: seq<Action>)
    requires Run(p, Initial(p), actions).exitCode.Some?
    ensures !Run(p, Initial(p), actions).overlayUp
  {
    hide Run, Next;
    InitialInv(p);
    RunKeepsInv(p, Initial(p), actions);
  }

  /** The final code is the program's own or 12; through exit(code) it is the program's
      exactly when exit, and not a handler, was the one that set the flag. */
  lemma FinalCode(p: Program, actions: seq<Action>)
    requires Run(p, Initial(p), actions).exitCode.Some?
    ensures var s := Run(p, Initial(p), actions);
            && s.exitCode.value in {p.code, 12}
            && (p.viaExit ==> s.setBy.Some? && s.exitCode.value == if s.setBy == Some(0) then p.code else 12)
  {
    hide Run, Next;
    InitialInv(p);
    RunKeepsInv(p, Initial(p), actions);
  }

  /** A handler is on top of the main program, and the main program has not set the flag. */
  predicate HandlerInCharge(s: State)
  {
    |s.stack| >= 2 && s.setBy != Some(0) && (s.exitCode.Some? ==> s.setBy.Some?)
  }

  lemma StepKeepsHandler(p: Program, s: State, a: Action)
    requires Inv(p, s) && HandlerInCharge(s)
    ensures HandlerInCharge(Next(p, s, a))
  {
    hide CleanedAsDue;
    var top := |s.stack| - 1;
    assert !s.cleanedUp ==> BeforeFlag(s.stack[top], top);
    assert s.cleanedUp ==> AfterFlag(s.stack[s.setBy.value], s.setBy.value);
  }

  lemma {:induction false} HandlerStays(p: Program, s: State, actions: seq<Action>)
    requires Inv(p, s) && HandlerInCharge(s)
    ensures HandlerInCharge(Run(p, s, actions)) && Inv(p, Run(p, s, actions))
    decreases actions
  {
    hide Inv, Next, HandlerInCharge;
    if actions != [] {
      StepKeepsInv(p, s, actions[0]);
      StepKeepsHandler(p, s, actions[0]);
      HandlerStays(p, Next(p, s, actions[0]), actions[1..]);
    }
  }

  lemma {:induction false} RunsJoin(p: Program, s: State, first: seq<Action>, rest: seq<Action>)
    ensures Run(p, s, first + rest) == Run(p, Run(p, s, first), rest)
    decreases first
  {
    hide Next;
    if first == [] {
      assert first + rest == rest;
    } else {
      assert (first + rest)[1..] == first[1..] + rest;
      RunsJoin(p, Next(p, s, first[0]), first[1..], rest);
    }
  }

  /** A signal that comes before the flag is set aborts: whatever the program had decided and whatever comes after,
      the process exits 12. */
  lemma SignalBeforeCleanupAborts(p: Program, before: seq<Action>, after: seq<Action>)
    requires var s := Run(p, Initial(p), before); s.exitCode == None && !s.cleanedUp
    requires Run(p, Initial(p), before + [Signal] + after).exitCode.Some?
    ensures Run(p, Initial(p), before + [Signal] + after).exitCode == Some(12)
  {
    hide Run;
    InitialInv(p);
    RunKeepsInv(p, Initial(p), before);
    var s := Run(p, Initial(p), before);
    StepKeepsInv(p, s, Signal);
    var n := Next(p, s, Signal);
    assert Run(p, s, [Signal]) == n by { OneActionRun(p, s, Signal); }
    RunsJoin(p, Initial(p), before, [Signal]);
    RunsJoin(p, Initial(p), before + [Signal], after);
    HandlerStays(p, n, after);
  }

  lemma OneActionRun(p: Program, s: State, a: Action)
    ensures Run(p, s, [a]) == Next(p, s, a)
  {
    assert [a][1..] == [];
  }

  // ------------------------------------------------------------- it does exit

  /** Steps from where a call of cleanup() returns to. */
  function StepsAfter(after: Then): nat
  {
    match after case ThenAbort => 0 case ThenEnd => 1 case ThenSysExit => 7
  }

  /** The most steps an activation still has before it, the second cleanup at exit included. */
  function StepsLeft(pc: Pc): (n: nat)
    ensures n > 0
  {
    match pc
    case End => 1
    case SysExit => 7
    case StopOverlay(after) => StepsAfter(after) + 1
    case Forget(after) => StepsAfter(after) + 2
    case Release(after) => StepsAfter(after) + 3
    case SetFlag(after) => StepsAfter(after) + 4
    case Check(after) => StepsAfter(after) + 5
    case HandlerNotify => 6
    case HandlerCheck => 7
  }

  function StackLeft(stack: seq<Pc>): nat
  {
    if stack == [] then 0 else StackLeft(stack[..|stack| - 1]) + StepsLeft(stack[|stack| - 1])
  }

  lemma StackTop(below: seq<Pc>, pc: Pc)
    ensures StackLeft(below + [pc]) == StackLeft(below) + StepsLeft(pc)
  {
    assert (below + [pc])[..|below|] == below;
  }

  lemma GotoLowers(s: State, pc: Pc)
    requires s.stack != [] && StepsLeft(pc) < StepsLeft(s.stack[|s.stack| - 1])
    ensures StackLeft(Goto(s, pc).stack) < StackLeft(s.stack)
  {
    hide StepsLeft;
    StackTop(s.stack[..|s.stack| - 1], pc);
  }

  lemma CleanupLowers(s: State, after: Then)
    requires s.stack != [] && s.exitCode == None && StepsAfter(after) < StepsLeft(s.stack[|s.stack| - 1])
    ensures var n := AfterCleanup(s, after); n.exitCode == None ==> StackLeft(n.stack) < StackLeft(s.stack)
  {
    if after == ThenSysExit {
      GotoLowers(s, SysExit);
    } else if after == ThenEnd {
      GotoLowers(s, End);
    }
  }

  lemma CleanupStepLowers(p: Program, s: State)
    requires s.stack != [] && s.exitCode == None
    requires var pc := s.stack[|s.stack| - 1]; pc.SetFlag? || pc.Release? || pc.Forget? || pc.StopOverlay?
    ensures var n := Next(p, s, Step); n.exitCode == None ==> StackLeft(n.stack) < StackLeft(s.stack)
  {
    hide StackLeft, Goto, AfterCleanup;
    var top := |s.stack| - 1;
    match s.stack[top] {
      case SetFlag(after) => GotoLowers(s.(cleanedUp := true, setBy := Some(top)), Release(after));
      case Release(after) =>
        GotoLowers(s.(releases := s.releases + 1), Forget(after));
        GotoLowers(s, StopOverlay(after));
      case Forget(after) => GotoLowers(s.(cameraOpen := false), StopOverlay(after));
      case StopOverlay(after) => CleanupLowers(s.(overlayUp := false), after);
    }
  }

  /** Every step ends the process or brings its end nearer; a signal adds at most a handler. */
  lemma StepEndsOrLowers(p: Program, s: State)
    requires s.stack != [] && s.exitCode == None
    ensures var n := Next(p, s, Step); n.exitCode == None ==> StackLeft(n.stack) < StackLeft(s.stack)
  {
    hide StackLeft, Goto, AfterCleanup;
    var top := |s.stack| - 1;
    match s.stack[top] {
      case HandlerCheck =>
        StackTop(s.stack[..top], s.stack[top]);
        assert s.stack[..top] + [s.stack[top]] == s.stack;
        GotoLowers(s, HandlerNotify);
      case HandlerNotify => GotoLowers(s, Check(ThenAbort));
      case Check(after) =>
        CleanupLowers(s, after);
        GotoLowers(s, SetFlag(after));
      case SysExit => GotoLowers(s, Check(ThenEnd));
      case End =>
      case _ => CleanupStepLowers(p, s);
    }
  }

  function Count(actions: seq<Action>, a: Action): nat
    decreases actions
  {
    if actions == [] then 0 else (if actions[0] == a then 1 else 0) + Count(actions[1..], a)
  }

  lemma {:induction false} StaysEnded(p: Program, s: State, actions: seq<Action>)
    requires s.exitCode.Some?
    ensures Run(p, s, actions) == s
    decreases actions
  {
    if actions != [] {
      StaysEnded(p, s, actions[1..]);
    }
  }

  /** A run that has not exited has taken no more steps than the activations and signals allow. */
  lemma {:induction false} UnfinishedIsShort(p: Program, s: State, actions: seq<Action>)
    requires Inv(p, s) && Run(p, s, actions).exitCode == None
    ensures Count(actions, Step) + StackLeft(Run(p, s, actions).stack) <= StackLeft(s.stack) + 7 * Count(actions, Signal)
    decreases actions
  {
    hide Inv, Next, StackLeft;
    if actions != [] {
      var n := Next(p, s, actions[0]);
      if s.exitCode.Some? {
        StaysEnded(p, s, actions);
      } else {
        StepKeepsInv(p, s, actions[0]);
        UnfinishedIsShort(p, n, actions[1..]);
        if n.exitCode.Some? {
          StaysEnded(p, n, actions[1..]);
        }
        OneAction(p, s, actions[0]);
      }
    }
  }

  lemma OneAction(p: Program, s: State, a: Action)
    requires Inv(p, s) && s.exitCode == None && Next(p, s, a).exitCode == None
    ensures a == Step ==> StackLeft(Next(p, s, a).stack) < StackLeft(s.stack)
    ensures a == Signal ==> StackLeft(Next(p, s, a).stack) == StackLeft(s.stack) + 7
  {
    hide Inv, StackLeft;
    StackIsNotEmpty(p, s);
    if a == Step {
      StepEndsOrLowers(p, s);
    } else {
      StackTop(s.stack, HandlerCheck);
    }
  }

  /** With finitely many signals the process exits: after twelve steps and seven more for each signal at the latest. */
  lemma AlwaysExits(p: Program, actions: seq<Action>)
    requires Count(actions, Step) >= 12 + 7 * Count(actions, Signal)
    ensures Run(p, Initial(p), actions).exitCode.Some?
  {
    hide Run, Next, Inv;
    InitialInv(p);
    StackTop([], Initial(p).stack[0]);
    assert [] + [Initial(p).stack[0]] == Initial(p).stack;
    if Run(p, Initial(p), actions).exitCode == None {
      UnfinishedIsShort(p, Initial(p), actions);
      RunKeepsInv(p, Initial(p), actions);
      StackIsNotEmpty(p, Run(p, Initial(p), actions));
      assert false;
    }
  }

  /** Without a signal the main program is all there is, and only it can set the flag. */
  predicate Alone(s: State)
  {
    |s.stack| == 1 && s.setBy in {None, Some(0)}
  }

  lemma StepKeepsAlone(p: Program, s: State)
    requires Inv(p, s) && Alone(s)
    ensures Alone(Next(p, s, Step))
  {
    assert s.cleanedUp ==> AfterFlag(s.stack[0], 0);
    assert !s.cleanedUp ==> BeforeFlag(s.stack[0], 0);
  }

  lemma {:induction false} StaysAlone(p: Program, s: State, actions: seq<Action>)
    requires Inv(p, s) && Alone(s) && Count(actions, Signal) == 0
    ensures Alone(Run(p, s, actions))
    decreases actions
  {
    hide Inv, Next, Alone;
    if actions != [] {
      assert actions[0] == Step;
      StepKeepsAlone(p, s);
      StepKeepsInv(p, s, Step);
      StaysAlone(p, Next(p, s, Step), actions[1..]);
    }
  }

  /** Without a signal the process ends within twelve steps, with the code the program decided. */
  lemma UndisturbedExit(p: Program, actions: seq<Action>)
    requires Count(actions, Signal) == 0 && Count(actions, Step) >= 12
    ensures Run(p, Initial(p), actions).exitCode == Some(p.code)
  {
    hide Run, Next;
    InitialInv(p);
    AlwaysExits(p, actions);
    RunKeepsInv(p, Initial(p), actions);
    StaysAlone(p, Initial(p), actions);
  }

  /** The exception is real: a SystemExit from the stamps with no overlay, undisturbed, never touches the camera. */
  lemma StampsLeaveTheCamera(p: Program, actions: seq<Action>)
    requires !p.viaExit && !p.overlay && Count(actions, Signal) == 0
    ensures var s := Run(p, Initial(p), actions); s.releases == 0 && s.cameraOpen == p.cameraOpen
  {
    if actions != [] {
      assert actions[0] == Step;
      StaysEnded(p, Next(p, Initial(p), Step), actions[1..]);
    }
  }

  // ------------------------------------------------------- the idle watcher

  datatype Hint = SessionIdle | SessionBusy | Unknown

  /** One turn of the watcher: the flag at the loop test, the hint, the flag just before firing. */
  datatype Poll = Poll(cleanedAtTest: bool, hint: Hint, cleanedAtFire: bool)

  /** At i the session turned idle: busy was seen before, never three unknown hints in a
      row before, and cleanup had not run at any test up to here. */
  predicate TurnsIdle(polls: seq<Poll>, i: nat)
  {
    && i < |polls| && polls[i].hint == SessionIdle && !polls[i].cleanedAtFire
    && (exists j :: 0 <= j < i && polls[j].hint == SessionBusy)
    && (forall j :: 0 <= j <= i ==> !polls[j].cleanedAtTest)
    && NoThreeUnknown(polls, i)
  }

  predicate NoThreeUnknown(polls: seq<Poll>, i: nat)
    requires i <= |polls|
  {
    forall j :: 2 <= j < i ==> !UnknownRun(polls, j)
  }

  predicate UnknownRun(polls: seq<Poll>, j: nat)
    requires 2 <= j < |polls|
  {
    polls[j].hint == Unknown && polls[j - 1].hint == Unknown && polls[j - 2].hint == Unknown
  }

  /** The unknown hints in a row directly before i. */
  function Failures(polls: seq<Poll>, i: nat): nat
    requires i <= |polls|
  {
    if i > 0 && polls[i - 1].hint == Unknown then 1 + Failures(polls, i - 1) else 0
  }

  /** The watcher signals at most once, and exactly at the first turn from busy to idle. */
  method WatchSessionIdle(polls: seq<Poll>) returns (signalled: Option<nat>)
    ensures forall i: nat :: signalled == Some(i) <==> TurnsIdle(polls, i) && forall j: nat :: j < i ==> !TurnsIdle(polls, j)
  {
    var failures := 0;
    var seenNotIdle := false;
    var i := 0;
    while i < |polls| && !polls[i].cleanedAtTest
      invariant 0 <= i <= |polls|
      invariant failures == Failures(polls, i) < 3
      invariant seenNotIdle <==> exists j :: 0 <= j < i && polls[j].hint == SessionBusy
      invariant NoThreeUnknown(polls, i)
      invariant forall j :: 0 <= j < i ==> !polls[j].cleanedAtTest
      invariant forall j: nat :: j < i ==> !TurnsIdle(polls, j)
    {
      var hint := polls[i].hint;
      if hint == Unknown {
        failures := failures + 1;
        if failures >= 3 {
          assert UnknownRun(polls, i);
          return None;
        }
        i := i + 1;
        continue;
      }
      failures := 0;
      if hint == SessionIdle {
        if seenNotIdle && !polls[i].cleanedAtFire {
          assert TurnsIdle(polls, i);
          return Some(i);
        }
      } else {
        seenNotIdle := true;
      }
      i := i + 1;
    }
    return None;
  }
}
