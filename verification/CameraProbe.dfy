/** _probe_camera of ubuntu-hello-gtk/src/onboarding.py, called by any number of scan_cameras_thread
    threads at once: each call races a worker thread, which may outlive it, for the capture the worker opened. */
module CameraProbe {
  import opened Options

  datatype Status = Pending | Done | Abandoned

  /** The state dictionary of one call. Captures are numbered in the order they are opened. */
  datatype Cell = Cell(status: Status, capture: Option<nat>)

  // ------------------------------------------------ the two sections under lock

  /** The worker's section: the capture it has to release itself, if any. */
  function WorkerClaims(cell: Cell, cap: Option<nat>, ok: bool): (Cell, Option<nat>)
  {
    if cell.status != Pending then (cell, cap)
    else if ok then (Cell(Done, cap), None)
    else (cell.(status := Done), cap)
  }

  /** The caller's section after the join: the capture it returns, if any. */
  function CallerClaims(cell: Cell): (Cell, Option<nat>)
  {
    if cell.status == Pending then (cell.(status := Abandoned), None) else (cell, cell.capture)
  }

  class ProbeState {
    var status: Status
    var capture: Option<nat>

    ghost function Contents(): Cell
      reads this
    {
      Cell(status, capture)
    }

    constructor ()
      ensures Contents() == Cell(Pending, None)
    {
      status, capture := Pending, None;
    }

    method WorkerSection(cap: Option<nat>, ok: bool) returns (toRelease: Option<nat>)
      modifies this
      ensures (Contents(), toRelease) == WorkerClaims(old(Contents()), cap, ok)
    {
      if status != Pending {
        return cap;
      }
      status := Done;
      if ok {
        capture := cap;
        return None;
      }
      return cap;
    }

    method CallerSection() returns (returned: Option<nat>)
      modifies this
      ensures (Contents(), returned) == CallerClaims(old(Contents()))
    {
      if status == Pending {
        status := Abandoned;
        return None;
      }
      return capture;
    }
  }

  // ----------------------------------------------------------- the interleaving

  datatype Worker =
    | Opening
    | Reading(cap: nat)
    | AtLock(handle: Option<nat>, ok: bool)
    | Finished

  datatype Caller = Joining | Holding(cap: nat) | Through

  datatype Side = WorkerSide | CallerSide

  /** read: how the read of the capture this call's worker opened ended, once it has; first: whose section
      under lock came first. Both are records of the run that no step looks at. */
  datatype Probe = Probe(cell: Cell, worker: Worker, caller: Caller, read: Option<bool>, first: Option<Side>)

  function Earlier(first: Option<Side>, side: Side): Option<Side>
  {
    if first == None then Some(side) else first
  }

  /** Calls and their workers in the order they started; openers[c] is the call whose worker opened capture c. */
  datatype State = State(
    probes: seq<Probe>, openers: seq<nat>,
    workerReleased: multiset<nat>, returned: multiset<nat>, callerReleased: multiset<nat>)

  const INITIAL := State([], [], multiset{}, multiset{}, multiset{})

  datatype Action =
    | StartProbe
    | OpenEnds(i: nat, success: bool)   // VideoCapture() returns or raises
    | ReadEnds(i: nat, ok: bool)        // read() returns ok, or returns not ok or raises
    | WorkerLocks(i: nat)
    | CallerLocks(i: nat)               // the join ended, by timeout or because the worker did
    | CallerReleases(i: nat)            // the scan is done with the frame

  function OneOf(c: Option<nat>): multiset<nat>
  {
    if c.Some? then multiset{c.value} else multiset{}
  }

  function Next(s: State, a: Action): Option<State>
  {
    match a
    case StartProbe =>
      Some(s.(probes := s.probes + [Probe(Cell(Pending, None), Opening, Joining, None, None)]))
    case OpenEnds(i, success) =>
      if i < |s.probes| && s.probes[i].worker.Opening? then
        Some(if success
             then s.(probes := s.probes[i := s.probes[i].(worker := Reading(|s.openers|))], openers := s.openers + [i])
             else s.(probes := s.probes[i := s.probes[i].(worker := AtLock(None, false))]))
      else None
    case ReadEnds(i, ok) =>
      if i < |s.probes| && s.probes[i].worker.Reading? then
        Some(s.(probes := s.probes[i := s.probes[i].(worker := AtLock(Some(s.probes[i].worker.cap), ok), read := Some(ok))]))
      else None
    case WorkerLocks(i) =>
      if i < |s.probes| && s.probes[i].worker.AtLock? then
        var p := s.probes[i];
        var (cell, toRelease) := WorkerClaims(p.cell, p.worker.handle, p.worker.ok);
        Some(s.(probes := s.probes[i := p.(cell := cell, worker := Finished, first := Earlier(p.first, WorkerSide))],
                workerReleased := s.workerReleased + OneOf(toRelease)))
      else None
    case CallerLocks(i) =>
      if i < |s.probes| && s.probes[i].caller.Joining? then
        var p := s.probes[i];
        var (cell, taken) := CallerClaims(p.cell);
        Some(s.(probes := s.probes[i := p.(cell := cell, caller := if taken.Some? then Holding(taken.value) else Through,
                                                first := Earlier(p.first, CallerSide))],
                returned := s.returned + OneOf(taken)))
      else None
    case CallerReleases(i) =>
      if i < |s.probes| && s.probes[i].caller.Holding? then
        Some(s.(probes := s.probes[i := s.probes[i].(caller := Through)],
                callerReleased := s.callerReleased + multiset{s.probes[i].caller.cap}))
      else None
  }

  function Run(s: State, actions: seq<Action>): Option<State>
    decreases actions
  {
    if actions == [] then Some(s)
    else match Next(s, actions[0]) case None => None case Some(n) => Run(n, actions[1..])
  }

  // ------------------------------------------------------------- the invariant

  /** The capture a probe's worker opened, as far as the probe still mentions it. */
  predicate Mentions(p: Probe, c: nat)
  {
    p.worker == Reading(c) || (p.worker.AtLock? && p.worker.handle == Some(c)) || p.cell.capture == Some(c)
    || p.caller == Holding(c)
  }

  /** What one call's state, worker and caller agree on. */
  predicate Agrees(p: Probe)
  {
    && (p.cell.status == Pending ==> p.caller == Joining)
    && (p.cell.capture.Some? ==> p.cell.status == Done && p.worker == Finished)
    && (p.caller.Holding? ==> p.cell.capture == Some(p.caller.cap))
    && (p.worker.AtLock? ==> p.read == if p.worker.handle.Some? then Some(p.worker.ok) else None)
    && (p.worker.AtLock? && p.worker.ok ==> p.worker.handle.Some?)
    && (p.worker.Opening? || p.worker.Reading? ==> p.read == None)
    && (p.cell.status == match p.first case None => Pending case Some(WorkerSide) => Done case Some(CallerSide) => Abandoned)
    && (p.first == None ==> p.worker != Finished && p.caller == Joining)
    && (p.first == Some(WorkerSide) ==> p.worker == Finished)
    && (p.first == Some(CallerSide) ==> p.caller != Joining)
    && (p.cell.capture.Some? <==> p.first == Some(WorkerSide) && p.read == Some(true))
  }

  ghost predicate MentionsOnlyItsOwn(s: State, i: nat)
    requires i < |s.probes|
  {
    forall c: nat :: Mentions(s.probes[i], c) ==> c < |s.openers| && s.openers[c] == i
  }

  ghost predicate ProbeIsSound(s: State, i: nat)
    requires i < |s.probes|
  {
    && Agrees(s.probes[i])
    && MentionsOnlyItsOwn(s, i)
  }

  /** In a worker's hands, or put down for a caller that has not looked yet. */
  predicate InTransit(p: Probe, c: nat)
  {
    p.worker == Reading(c) || (p.worker.AtLock? && p.worker.handle == Some(c))
    || (p.cell.capture == Some(c) && p.caller == Joining)
  }

  function Count(b: bool): nat
  {
    if b then 1 else 0
  }

  /** Returned, released by its worker or still on its way: exactly one of the three, exactly once. */
  predicate HandedOnce(s: State, c: nat)
    requires c < |s.openers| && s.openers[c] < |s.probes|
  {
    var p := s.probes[s.openers[c]];
    && s.returned[c] + s.workerReleased[c] + Count(InTransit(p, c)) == 1
    && s.returned[c] == s.callerReleased[c] + Count(p.caller == Holding(c))
    && (s.returned[c] == 1 <==> p.cell.capture == Some(c) && p.caller != Joining)
    && IsItsCapture(p, c)
  }

  /** The one capture a call's worker opened. */
  predicate IsItsCapture(p: Probe, c: nat)
  {
    && (p.cell.capture.Some? ==> p.cell.capture == Some(c))
    && match p.worker
       case Opening => false
       case Reading(cap) => cap == c
       case AtLock(handle, _) => handle == Some(c)
       case Finished => p.read.Some?
  }

  ghost predicate Inv(s: State)
  {
    && (forall c :: 0 <= c < |s.openers| ==> s.openers[c] < |s.probes|)
    && (forall i: nat :: i < |s.probes| ==> ProbeIsSound(s, i))
    && (forall c: nat :: c < |s.openers| ==> HandedOnce(s, c))
    && (forall c: nat :: c >= |s.openers| ==> Unseen(s, c))
  }

  predicate Unseen(s: State, c: nat)
  {
    s.returned[c] == 0 && s.workerReleased[c] == 0 && s.callerReleased[c] == 0
  }

  /** The probe an action moves; StartProbe only adds one. */
  function Mover(s: State, a: Action): nat
  {
    match a
    case StartProbe => |s.probes|
    case OpenEnds(i, _) => i
    case ReadEnds(i, _) => i
    case WorkerLocks(i) => i
    case CallerLocks(i) => i
    case CallerReleases(i) => i
  }

  lemma OthersStay(s: State, a: Action, i: nat)
    requires Next(s, a).Some? && i < |s.probes| && i != Mover(s, a)
    ensures Next(s, a).value.probes[i] == s.probes[i]
  {
    hide OneOf, WorkerClaims, CallerClaims;
  }

  lemma OpenersGrow(s: State, a: Action)
    requires Next(s, a).Some?
    ensures |Next(s, a).value.probes| == |s.probes| + Count(a == StartProbe)
    ensures Next(s, a).value.openers == s.openers + if a.OpenEnds? && a.success then [a.i] else []
    ensures a.OpenEnds? ==> a.i < |s.probes|
  {
    hide OneOf, WorkerClaims, CallerClaims;
  }

  lemma MoverAgrees(s: State, a: Action)
    requires Next(s, a).Some? && (Mover(s, a) < |s.probes| ==> Agrees(s.probes[Mover(s, a)]))
    ensures Agrees(Next(s, a).value.probes[Mover(s, a)])
  {
    hide OneOf;
  }

  lemma AgreesStill(s: State, a: Action, i: nat)
    requires Next(s, a).Some? && i < |Next(s, a).value.probes|
    requires i < |s.probes| ==> Agrees(s.probes[i])
    ensures Agrees(Next(s, a).value.probes[i])
  {
    hide Next, Agrees;
    OpenersGrow(s, a);
    if i == Mover(s, a) {
      MoverAgrees(s, a);
    } else {
      OthersStay(s, a, i);
    }
  }

  /** A probe mentions a capture only if it did before, or its worker has just opened it. */
  lemma MoverMentions(s: State, a: Action, c: nat)
    requires Next(s, a).Some? && Mentions(Next(s, a).value.probes[Mover(s, a)], c)
    ensures (Mover(s, a) < |s.probes| && Mentions(s.probes[Mover(s, a)], c))
            || (a.OpenEnds? && a.success && c == |s.openers|)
  {
    hide OneOf;
  }

  lemma MentionsStill(s: State, a: Action, i: nat, c: nat)
    requires Next(s, a).Some? && i < |Next(s, a).value.probes| && Mentions(Next(s, a).value.probes[i], c)
    requires i < |s.probes| && Mentions(s.probes[i], c) ==> c < |s.openers| && s.openers[c] == i
    ensures var n := Next(s, a).value; c < |n.openers| && n.openers[c] == i
  {
    hide Next, Mentions;
    OpenersGrow(s, a);
    if i == Mover(s, a) {
      MoverMentions(s, a, c);
    } else {
      OthersStay(s, a, i);
    }
  }

  lemma ProbeKept(s: State, a: Action, i: nat)
    requires Next(s, a).Some? && i < |Next(s, a).value.probes|
    requires i < |s.probes| ==> ProbeIsSound(s, i)
    ensures ProbeIsSound(Next(s, a).value, i)
  {
    hide Next, Agrees, Mentions;
    AgreesStill(s, a, i);
    forall c: nat | Mentions(Next(s, a).value.probes[i], c)
      ensures c < |Next(s, a).value.openers| && Next(s, a).value.openers[c] == i
    {
      MentionsStill(s, a, i, c);
    }
  }

  /** An action of one probe does nothing to a capture another probe opened. */
  lemma KeptByOthers(s: State, a: Action, c: nat)
    requires Next(s, a).Some? && c < |s.openers| && s.openers[c] < |s.probes| && Mover(s, a) != s.openers[c]
    requires Mover(s, a) < |s.probes| ==> ProbeIsSound(s, Mover(s, a))
    requires HandedOnce(s, c)
    ensures HandedOnce(Next(s, a).value, c)
  {
    if Mover(s, a) < |s.probes| {
      assert !Mentions(s.probes[Mover(s, a)], c);
    }
  }

  lemma KeptByItsProbe(s: State, a: Action, c: nat)
    requires Next(s, a).Some? && c < |s.openers| && s.openers[c] < |s.probes| && Mover(s, a) == s.openers[c]
    requires MentionsOnlyItsOwn(s, Mover(s, a)) && Agrees(s.probes[Mover(s, a)]) && HandedOnce(s, c)
    ensures HandedOnce(Next(s, a).value, c)
  {
    hide MentionsOnlyItsOwn;
    match a {
      case WorkerLocks(i) => KeptByWorker(s, i, c);
      case CallerLocks(i) => KeptByCaller(s, i, c);
      case _ =>
    }
  }

  lemma KeptByWorker(s: State, i: nat, c: nat)
    requires Next(s, WorkerLocks(i)).Some? && c < |s.openers| && s.openers[c] == i && i < |s.probes|
    requires MentionsOnlyItsOwn(s, i) && Agrees(s.probes[i]) && HandedOnce(s, c)
    ensures HandedOnce(Next(s, WorkerLocks(i)).value, c)
  {
  }

  lemma KeptByCaller(s: State, i: nat, c: nat)
    requires Next(s, CallerLocks(i)).Some? && c < |s.openers| && s.openers[c] == i && i < |s.probes|
    requires Agrees(s.probes[i]) && HandedOnce(s, c)
    ensures HandedOnce(Next(s, CallerLocks(i)).value, c)
  {
  }

  lemma CaptureKept(s: State, a: Action, c: nat)
    requires Next(s, a).Some? && c < |s.openers| && s.openers[c] < |s.probes|
    requires forall i: nat :: i < |s.probes| ==> ProbeIsSound(s, i)
    requires HandedOnce(s, c)
    ensures HandedOnce(Next(s, a).value, c)
  {
    hide Next, HandedOnce, MentionsOnlyItsOwn, Agrees;
    if Mover(s, a) == s.openers[c] {
      assert ProbeIsSound(s, s.openers[c]);
      KeptByItsProbe(s, a, c);
    } else {
      KeptByOthers(s, a, c);
    }
  }

  lemma NewCapture(s: State, i: nat)
    requires Next(s, OpenEnds(i, true)).Some? && ProbeIsSound(s, i) && Unseen(s, |s.openers|)
    ensures HandedOnce(Next(s, OpenEnds(i, true)).value, |s.openers|)
  {
  }

  lemma StillUnseen(s: State, a: Action, c: nat)
    requires Next(s, a).Some? && c >= |Next(s, a).value.openers| && Unseen(s, c)
    requires forall i: nat :: i < |s.probes| ==> ProbeIsSound(s, i)
    ensures Unseen(Next(s, a).value, c)
  {
    forall i: nat | i < |s.probes|
      ensures !Mentions(s.probes[i], c)
    {
      assert ProbeIsSound(s, i);
    }
  }

  lemma StepKeepsInv(s: State, a: Action)
    requires Inv(s) && Next(s, a).Some?
    ensures Inv(Next(s, a).value)
  {
    hide ProbeIsSound, HandedOnce, Unseen, Next;
    var n := Next(s, a).value;
    OpenersGrow(s, a);
    forall i: nat | i < |n.probes|
      ensures ProbeIsSound(n, i)
    {
      ProbeKept(s, a, i);
    }
    forall c: nat | c < |n.openers|
      ensures HandedOnce(n, c)
    {
      if c < |s.openers| {
        CaptureKept(s, a, c);
      } else {
        NewCapture(s, a.i);
      }
    }
    forall c: nat | c >= |n.openers|
      ensures Unseen(n, c)
    {
      StillUnseen(s, a, c);
    }
  }

  lemma {:induction false} RunKeepsInv(s: State, actions: seq<Action>)
    requires Inv(s) && Run(s, actions).Some?
    ensures Inv(Run(s, actions).value)
    decreases actions
  {
    hide Inv, Next;
    if actions != [] {
      StepKeepsInv(s, actions[0]);
      RunKeepsInv(Next(s, actions[0]).value, actions[1..]);
    }
  }

  // --------------------------------------------------------------- the results

  /** Once the worker that opened a capture has finished and the call it served is over, the capture
      was either returned to the caller or released by the worker: never both, never neither. */
  lemma HandedOverExactlyOnce(actions: seq<Action>, c: nat)
    requires Run(INITIAL, actions).Some? && c < |Run(INITIAL, actions).value.openers|
    ensures var s := Run(INITIAL, actions).value;
            && s.openers[c] < |s.probes|
            && s.returned[c] + s.workerReleased[c] <= 1
            && (s.probes[s.openers[c]].worker.Finished? && s.probes[s.openers[c]].caller != Joining ==>
                  s.returned[c] + s.workerReleased[c] == 1)
  {
    RunKeepsInv(INITIAL, actions);
    var s := Run(INITIAL, actions).value;
    assert HandedOnce(s, c) && ProbeIsSound(s, s.openers[c]);
  }

  /** When every call is over, its capture released by the scan that got it, and every worker has finished,
      stale ones included, every capture ever opened has been released exactly once, and nothing else has. */
  lemma EverythingReleasedOnce(actions: seq<Action>, c: nat)
    requires Run(INITIAL, actions).Some?
    requires var s := Run(INITIAL, actions).value;
             forall i :: 0 <= i < |s.probes| ==> s.probes[i].worker.Finished? && s.probes[i].caller == Through
    ensures var s := Run(INITIAL, actions).value;
            s.workerReleased[c] + s.callerReleased[c] == if c < |s.openers| then 1 else 0
  {
    RunKeepsInv(INITIAL, actions);
    var s := Run(INITIAL, actions).value;
    if c < |s.openers| {
      assert HandedOnce(s, c) && ProbeIsSound(s, s.openers[c]);
    } else {
      assert Unseen(s, c);
    }
  }

  /** Who gets a capture: the caller exactly if the read succeeded and the worker came to the lock first; in all
      other cases the worker releases it. */
  lemma WhoGetsIt(actions: seq<Action>, c: nat)
    requires Run(INITIAL, actions).Some? && c < |Run(INITIAL, actions).value.openers|
    ensures var s := Run(INITIAL, actions).value;
            && s.openers[c] < |s.probes|
            && var p := s.probes[s.openers[c]];
            && (s.returned[c] == 1 ==> p.read == Some(true))
            && (p.worker.Finished? && p.caller != Joining ==>
                  && (s.returned[c] == 1 <==> p.read == Some(true) && p.first == Some(WorkerSide))
                  && (s.workerReleased[c] == 1 <==> p.read == Some(false) || p.first == Some(CallerSide)))
            && (p.worker.Finished? && p.read == Some(false) ==> s.workerReleased[c] == 1)
  {
    RunKeepsInv(INITIAL, actions);
    var s := Run(INITIAL, actions).value;
    assert HandedOnce(s, c) && ProbeIsSound(s, s.openers[c]);
    var p := s.probes[s.openers[c]];
    if p.worker.Finished? && p.caller != Joining {
      assert Agrees(p) && !InTransit(p, c) && p.read.Some? && p.first.Some?;
      assert s.returned[c] + s.workerReleased[c] == 1;
      var ok := p.read.value;
      assert p.read == Some(ok);
      if ok {
        assert p.read == Some(true);
      } else {
        assert p.read == Some(false);
      }
    }
  }
}
