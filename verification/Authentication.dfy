/** One authentication attempt end to end: what a result of identify() implies about
    the frames compare.py saw and the stamps it ran. */
module Authentication {
  import opened Options
  import opened Text
  import ScanLoop
  import Rubberstamps
  import Shutdown
  import Nod
  import Race = IdentifyRace

  /** One run of compare.py: an exit before the loop, or what the loop and the stamps were given. */
  datatype Compare = Compare(
    earlyExit: Option<int>,      // bad arguments, no model, no camera, a missing module: never 0
    config: ScanLoop.Config,
    loopStart: real,
    turns: seq<ScanLoop.Turn>,
    stampsEnabled: bool,
    rules: seq<Rubberstamps.Rule>,
    overlay: bool)

  predicate WellFormed(run: Compare)
  {
    run.earlyExit.Some? ==> run.earlyExit.value != 0
  }

  /** The exit code compare decides on, if it gets that far. */
  function Decided(run: Compare): Option<int>
  {
    if run.earlyExit.Some? then run.earlyExit
    else
      match ScanLoop.Scan(run.config, run.loopStart, run.turns).1
      case Running => None
      case TimedOut(code) => Some(code)
      case Matched => Some(if run.stampsEnabled then Rubberstamps.ExitCode(run.rules) else 0)
  }

  /** Whether the decision is carried out by exit(code) or by a SystemExit from the stamps. */
  predicate ViaExit(run: Compare)
  {
    !(run.earlyExit == None && run.stampsEnabled
      && ScanLoop.Scan(run.config, run.loopStart, run.turns).1 == ScanLoop.Matched)
  }

  /** The shutdown of a decided run, under any signals. */
  function Ending(run: Compare, cameraOpen: bool, signals: seq<Shutdown.Action>): Shutdown.State
    requires Decided(run).Some?
  {
    var program := Shutdown.Program(Decided(run).value, ViaExit(run), run.overlay, cameraOpen);
    Shutdown.Run(program, Shutdown.Initial(program), signals)
  }

  /** Every wait status the run can leave: killed by a signal; 12 from the handler before
      a decision; 1 from an uncaught exception; or the end of a decided run. */
  ghost predicate MayEnd(run: Compare, status: Race.WaitStatus)
  {
    || status.Signaled?
    || status == Race.Exited(12)
    || status == Race.Exited(1)
    || (Decided(run).Some?
        && exists cameraOpen, signals ::
             Ending(run, cameraOpen, signals).exitCode.Some?
             && status == Race.Exited(Ending(run, cameraOpen, signals).exitCode.value))
  }

  predicate NoStampRefuses(run: Compare)
  {
    run.stampsEnabled ==>
      forall i :: 0 <= i < |run.rules| && Rubberstamps.Reached(run.rules, i) ==> !Rubberstamps.Refuses(run.rules[i])
  }

  /** The frames and the stamps agree that this is the user: enough of them match, and no stamp that ran refused. */
  predicate Recognised(run: Compare)
  {
    && run.earlyExit == None
    && |ScanLoop.MatchingIndices(run.config, run.turns)| >= ScanLoop.Needed(run.config)
    && NoStampRefuses(run)
  }

  lemma {:induction false} TimeOutCode(c: ScanLoop.Config, loopStart: real, turns: seq<ScanLoop.Turn>)
    requires ScanLoop.Scan(c, loopStart, turns).1.TimedOut?
    ensures ScanLoop.Scan(c, loopStart, turns).1.code in {11, 13}
    decreases turns
  {
    var before := turns[..|turns| - 1];
    if ScanLoop.Scan(c, loopStart, before).1 != ScanLoop.Running {
      TimeOutCode(c, loopStart, before);
    }
  }

  /** compare exits 0 only when it recognised the user. */
  lemma ZeroMeansRecognised(run: Compare, status: Race.WaitStatus)
    requires WellFormed(run) && MayEnd(run, status) && status == Race.Exited(0)
    ensures Recognised(run)
  {
    hide ScanLoop.Scan, ScanLoop.MatchingIndices;
    var cameraOpen, signals :| Ending(run, cameraOpen, signals).exitCode == Some(0);
    var program := Shutdown.Program(Decided(run).value, ViaExit(run), run.overlay, cameraOpen);
    Shutdown.FinalCode(program, signals);
    assert Decided(run) == Some(0);
    if ScanLoop.Scan(run.config, run.loopStart, run.turns).1.TimedOut? {
      TimeOutCode(run.config, run.loopStart, run.turns);
    }
    ScanLoop.MatchedMeans(run.config, run.loopStart, run.turns);
    if run.stampsEnabled {
      Rubberstamps.AcceptedExactly(run.rules);
    }
  }

  /** What the process exits with after the turns it was given; None while it still scans. */
  function LeavesWith(run: Compare, cameraOpen: bool, signals: seq<Shutdown.Action>): Option<int>
  {
    if Decided(run) == None then None else Ending(run, cameraOpen, signals).exitCode
  }

  /** No signal comes, and the process is given the time to end. */
  predicate Undisturbed(signals: seq<Shutdown.Action>)
  {
    Shutdown.Count(signals, Shutdown.Signal) == 0 && Shutdown.Count(signals, Shutdown.Step) >= 12
  }

  lemma CarriedOut(run: Compare, cameraOpen: bool, signals: seq<Shutdown.Action>)
    requires Undisturbed(signals)
    ensures LeavesWith(run, cameraOpen, signals) == Decided(run)
  {
    hide Decided, ViaExit;
    if Decided(run).Some? {
      Shutdown.UndisturbedExit(Shutdown.Program(Decided(run).value, ViaExit(run), run.overlay, cameraOpen), signals);
    }
  }

  /** An early exit keeps its code. Otherwise compare goes on as long as every time check holds and too few frames match. */
  lemma LeavesEarlyOrScans(run: Compare, cameraOpen: bool, signals: seq<Shutdown.Action>)
    requires Undisturbed(signals)
    ensures run.earlyExit.Some? ==> LeavesWith(run, cameraOpen, signals) == run.earlyExit
    ensures run.earlyExit == None ==>
              (LeavesWith(run, cameraOpen, signals) == None
               <==> ScanLoop.InTime(run.config, run.loopStart, run.turns)
                    && ScanLoop.MatchingFrames(run.config, run.turns) < ScanLoop.Needed(run.config))
  {
    hide ScanLoop.InTime, ScanLoop.MatchingFrames, ScanLoop.Scan, Undisturbed, LeavesWith;
    CarriedOut(run, cameraOpen, signals);
    ScanLoop.RunsExactlyWhile(run.config, run.loopStart, run.turns);
  }

  lemma LeavesAtTurn(run: Compare, k: nat)
    requires k < |run.turns| && ScanLoop.Scan(run.config, run.loopStart, run.turns[..k]).1 == ScanLoop.Running
    requires ScanLoop.Scan(run.config, run.loopStart, run.turns[..k + 1]).1 != ScanLoop.Running
    ensures ScanLoop.Scan(run.config, run.loopStart, run.turns).1
            == if !ScanLoop.InTime(run.config, run.loopStart, run.turns[..k + 1])
               then ScanLoop.TimedOut(if ScanLoop.UsableSeen(run.config, run.turns[..k]) then 11 else 13)
               else ScanLoop.Matched
  {
    hide ScanLoop.InTime, ScanLoop.MatchingFrames, ScanLoop.Scan, ScanLoop.UsableSeen;
    assert run.turns[..k + 1] == run.turns[..k] + [run.turns[k]];
    ScanLoop.ScanStops(run.config, run.loopStart, run.turns, k + 1);
    ScanLoop.LeavesExactly(run.config, run.loopStart, run.turns[..k], run.turns[k]);
  }

  /** When the time is up before enough frames matched, compare exits 13 if it never saw a usable frame, else 11. */
  lemma LateMeansTimeOut(run: Compare, k: nat, cameraOpen: bool, signals: seq<Shutdown.Action>)
    requires run.earlyExit == None && Undisturbed(signals) && k < |run.turns|
    requires ScanLoop.InTime(run.config, run.loopStart, run.turns[..k])
    requires ScanLoop.MatchingFrames(run.config, run.turns[..k]) < ScanLoop.Needed(run.config)
    requires !ScanLoop.InTime(run.config, run.loopStart, run.turns[..k + 1])
    ensures LeavesWith(run, cameraOpen, signals) == Some(if ScanLoop.UsableSeen(run.config, run.turns[..k]) then 11 else 13)
  {
    hide ScanLoop.InTime, ScanLoop.MatchingFrames, ScanLoop.Scan, ScanLoop.UsableSeen, Undisturbed, LeavesWith;
    CarriedOut(run, cameraOpen, signals);
    ScanLoop.RunsExactlyWhile(run.config, run.loopStart, run.turns[..k]);
    ScanLoop.RunsExactlyWhile(run.config, run.loopStart, run.turns[..k + 1]);
    LeavesAtTurn(run, k);
  }

  /** The k-th turn brings the last matching frame that is needed, and up to it every time check holds. */
  predicate MatchesInTime(run: Compare, k: nat)
  {
    && run.earlyExit == None && k < |run.turns|
    && ScanLoop.InTime(run.config, run.loopStart, run.turns[..k + 1])
    && |ScanLoop.MatchingIndices(run.config, run.turns[..k])| < ScanLoop.Needed(run.config)
    && |ScanLoop.MatchingIndices(run.config, run.turns[..k + 1])| == ScanLoop.Needed(run.config)
  }

  /** The other direction of ZeroMeansRecognised: once enough frames have matched in time, compare exits 0 exactly if no
      stamp that ran refuses, and so always when the stamps are off; a denial is 15. */
  lemma MatchInTimeExitsZero(run: Compare, k: nat, cameraOpen: bool, signals: seq<Shutdown.Action>)
    requires MatchesInTime(run, k) && Undisturbed(signals)
    ensures LeavesWith(run, cameraOpen, signals) == Some(0) <==> NoStampRefuses(run)
    ensures run.stampsEnabled && (exists i :: 0 <= i < |run.rules| && Rubberstamps.Reached(run.rules, i)
                                              && Rubberstamps.Denies(run.rules[i]))
            ==> LeavesWith(run, cameraOpen, signals) == Some(15)
  {
    hide ScanLoop.InTime, ScanLoop.MatchingFrames, ScanLoop.MatchingIndices, ScanLoop.Scan, Undisturbed, LeavesWith;
    CarriedOut(run, cameraOpen, signals);
    ScanLoop.CountIsCardinality(run.config, run.turns[..k]);
    ScanLoop.CountIsCardinality(run.config, run.turns[..k + 1]);
    InTimeBefore(run, k);
    ScanLoop.RunsExactlyWhile(run.config, run.loopStart, run.turns[..k]);
    ScanLoop.RunsExactlyWhile(run.config, run.loopStart, run.turns[..k + 1]);
    LeavesAtTurn(run, k);
    Rubberstamps.AcceptedExactly(run.rules);
    assert NoStampRefuses(run) <==> (run.stampsEnabled ==> Rubberstamps.ExitCode(run.rules) == 0);
  }

  lemma InTimeBefore(run: Compare, k: nat)
    requires k < |run.turns| && ScanLoop.InTime(run.config, run.loopStart, run.turns[..k + 1])
    ensures ScanLoop.InTime(run.config, run.loopStart, run.turns[..k])
  {
    hide ScanLoop.InTime;
    assert run.turns[..k + 1] == run.turns[..k] + [run.turns[k]];
    ScanLoop.InTimeAppend(run.config, run.loopStart, run.turns[..k], run.turns[k]);
  }

  /** However compare leaves, under any signals, its camera is closed, released exactly once, unless stamps ended a
      match with no overlay shown. */
  lemma CameraIsClosed(run: Compare, cameraOpen: bool, signals: seq<Shutdown.Action>)
    requires LeavesWith(run, cameraOpen, signals).Some?
    requires run.earlyExit.Some? || !run.stampsEnabled || run.overlay
    ensures var s := Ending(run, cameraOpen, signals);
            !s.cameraOpen && !s.overlayUp && s.releases == if cameraOpen then 1 else 0
  {
    hide Decided, ScanLoop.Scan, Shutdown.Run;
    var program := Shutdown.Program(Decided(run).value, ViaExit(run), run.overlay, cameraOpen);
    Shutdown.ReleaseIsAttemptedExactly(program, signals);
    Shutdown.NoOverlayIsLeft(program, signals);
  }

  /** One frame is enough when one confirmation is: bright enough, with some face within the threshold, read in time. */
  lemma OneGoodFrame(run: Compare, t: ScanLoop.Turn, face: nat, cameraOpen: bool, signals: seq<Shutdown.Action>)
    requires run.earlyExit == None && !run.stampsEnabled && run.turns == [t] && run.config.configuredConfirmations <= 1
    requires t.frame.darkness != 100.0 && t.frame.darkness <= run.config.darkThreshold
    requires face < |t.frame.faces| && 0.0 < t.frame.faces[face] < run.config.certainty
    requires run.config.configuredAcquisition >= 0.0 && t.now < run.loopStart + run.config.configuredAcquisition
    requires Undisturbed(signals)
    ensures LeavesWith(run, cameraOpen, signals) == Some(0)
  {
    hide LeavesWith, Undisturbed;
    var c := run.config;
    assert run.turns[..0] == [] && run.turns[..1] == [t];
    assert ScanLoop.FaceMatches(c, t.frame.faces[face]);
    assert ScanLoop.MatchingIndices(c, []) == {} && ScanLoop.MatchingIndices(c, [t]) == {0};
    MatchInTimeExitsZero(run, 0, cameraOpen, signals);
  }

  /** A recognised user is let in: whatever the setup, identify has a run on such a compare that returns PAM_SUCCESS. */
  lemma RecognisedUserGetsIn(setup: Race.Setup, run: Compare, k: nat) returns (actions: seq<Race.Action>)
    requires MatchesInTime(run, k) && NoStampRefuses(run)
    ensures Race.Run(setup, Race.INITIAL, actions).Some?
    ensures var s := Race.Run(setup, Race.INITIAL, actions).value;
            s.main == Race.Returned(Race.PamSuccess) && s.child == Some(Race.Exited(0)) && MayEnd(run, Race.Exited(0))
  {
    hide Race.Run, NoStampRefuses, MatchesInTime;
    var signals := seq(12, i => Shutdown.Step);
    OnlySteps(12);
    MatchInTimeExitsZero(run, k, true, signals);
    assert Ending(run, true, signals).exitCode == Some(0);
    actions := Race.SuccessIsReached(setup);
  }

  lemma {:induction false} OnlySteps(n: nat)
    ensures Shutdown.Count(seq(n, i => Shutdown.Step), Shutdown.Step) == n
    ensures Shutdown.Count(seq(n, i => Shutdown.Step), Shutdown.Signal) == 0
  {
    if n > 0 {
      assert seq(n, i => Shutdown.Step)[1..] == seq(n - 1, i => Shutdown.Step);
      OnlySteps(n - 1);
    }
  }

  /** Over every interleaving of the threads and the child, every stream of frames, every
      set of stamps and every placement of signals: PAM_SUCCESS means that compare exited
      0, the needed number of different frames matched, and no stamp that ran refused. */
  lemma SuccessMeansRecognised(setup: Race.Setup, actions: seq<Race.Action>, run: Compare)
    requires Race.Run(setup, Race.INITIAL, actions).Some?
    requires var s := Race.Run(setup, Race.INITIAL, actions).value;
             s.main == Race.Returned(Race.PamSuccess) && (s.child.Some? ==> MayEnd(run, s.child.value))
    requires WellFormed(run)
    ensures Race.Run(setup, Race.INITIAL, actions).value.child == Some(Race.Exited(0)) && Recognised(run)
  {
    hide Race.Run, Recognised;
    Race.ResultsMean(setup, actions, Race.PamSuccess);
    ZeroMeansRecognised(run, Race.Exited(0));
  }

  /** Refused or stepped over is not the same: exactly when does PAM_SUCCESS mean that every failsafe stamp ran
      and passed? When no failsafe rule is stepped over, if the stamps never leave with 0 on their own. */
  lemma SuccessMeansEveryFailsafeStampRan(setup: Race.Setup, actions: seq<Race.Action>, run: Compare)
    requires Race.Run(setup, Race.INITIAL, actions).Some?
    requires var s := Race.Run(setup, Race.INITIAL, actions).value;
             s.main == Race.Returned(Race.PamSuccess) && (s.child.Some? ==> MayEnd(run, s.child.value))
    requires WellFormed(run) && run.stampsEnabled
    requires forall i :: 0 <= i < |run.rules| && Rubberstamps.Leaves(run.rules[i]) ==> Rubberstamps.LeavingCode(run.rules[i]) != 0
    ensures (forall i :: 0 <= i < |run.rules| && Rubberstamps.Failsafe(run.rules[i]) ==> Rubberstamps.RanAndPassed(run.rules, i))
            <==> forall i :: 0 <= i < |run.rules| && Rubberstamps.Failsafe(run.rules[i]) ==>
                   !Rubberstamps.SteppedOver(run.rules[i])
  {
    hide Race.Run, MayEnd;
    SuccessMeansRecognised(setup, actions, run);
    Rubberstamps.AcceptedExactly(run.rules);
    Rubberstamps.OnlySteppingOverAccepts(run.rules);
  }

  // ---------------------------------------------------- a nod among the stamps

  /** A rule for the nod stamp, run to its end on these looks. */
  function NodRule(word: string, settings: Nod.Settings, start: real, looks: seq<Nod.Look>): Rubberstamps.Rule
  {
    var result := Nod.After(settings.(failsafe := Rubberstamps.StampFailsafe(word)), start, looks, |looks|).1;
    Rubberstamps.Parsed(word, Rubberstamps.Runs(Rubberstamps.Returns(result != Some(true))))
  }

  /** With a failsafe nod rule, PAM_SUCCESS also means that the user nodded: at least min_directions
      alternating legs in y, each beyond the bar. No earlier stamp may leave with 0 on its own. */
  lemma SuccessMeansNodded(setup: Race.Setup, actions: seq<Race.Action>, run: Compare, i: nat,
                           word: string, settings: Nod.Settings, start: real, looks: seq<Nod.Look>)
    requires Race.Run(setup, Race.INITIAL, actions).Some?
    requires var s := Race.Run(setup, Race.INITIAL, actions).value;
             s.main == Race.Returned(Race.PamSuccess) && (s.child.Some? ==> MayEnd(run, s.child.value))
    requires WellFormed(run) && run.stampsEnabled && i < |run.rules|
    requires forall j :: 0 <= j < i && Rubberstamps.Leaves(run.rules[j]) ==> Rubberstamps.LeavingCode(run.rules[j]) != 0
    requires run.rules[i] == NodRule(word, settings, start, looks) && word != "faildeadly"
    ensures exists legs :: Nod.Alternating(settings.(failsafe := true), looks, Nod.Y, legs)
                           && |legs| >= settings.minDirections && |legs| >= 1
    ensures !(settings.minDirections >= 2 && (Nod.RisesInY(looks) || Nod.FallsInY(looks)))
  {
    hide Race.Run, Nod.After, Nod.Alternating, Nod.RisesInY, Nod.FallsInY, MayEnd;
    SuccessMeansRecognised(setup, actions, run);
    Rubberstamps.AcceptedReaches(run.rules, i);
    assert !Rubberstamps.Refuses(run.rules[i]);
    Nod.ConfirmedMeansNods(settings.(failsafe := true), start, looks);
    if Nod.RisesInY(looks) || Nod.FallsInY(looks) {
      Nod.OneWayNeverConfirms(settings.(failsafe := true), start, looks);
    }
  }

  /** A nose that goes up and down settles the nod rule in favour, and one that goes from side to side against it,
      whatever the third field of the rule says. */
  lemma ZigzagSettlesTheRule(word: string, settings: Nod.Settings, start: real, looks: seq<Nod.Look>, axis: Nod.Axis, i: nat)
    requires Nod.Steady(settings, start, looks, axis, i) && Nod.Zigzag(settings, looks, axis, i)
    requires i > settings.minDirections >= 1 && settings.minDistance >= 0.0
    ensures Rubberstamps.Refuses(NodRule(word, settings, start, looks)) <==> axis == Nod.X
  {
    hide Nod.After, Nod.Zigzag, Nod.Steady;
    var o := settings.(failsafe := Rubberstamps.StampFailsafe(word));
    SameLooks(settings, o.failsafe, start, looks, axis, i);
    Nod.ZigzagDecides(o, start, looks, axis, i);
    Nod.StaysDecided(o, start, looks, i, |looks|);
  }

  lemma SameLooks(settings: Nod.Settings, failsafe: bool, start: real, looks: seq<Nod.Look>, axis: Nod.Axis, i: nat)
    requires Nod.Steady(settings, start, looks, axis, i) && Nod.Zigzag(settings, looks, axis, i)
    ensures var o := settings.(failsafe := failsafe);
            i <= |looks| && Nod.Steady(o, start, looks, axis, i) && Nod.Zigzag(o, looks, axis, i)
  {
    var o := settings.(failsafe := failsafe);
    forall j: nat | 0 < j < i
      ensures Nod.TurnsBack(o, looks, axis, j)
    {
      assert Nod.TurnsBack(settings, looks, axis, j);
    }
  }

  /** Until the time is up the failsafe option makes no difference to a nod. */
  lemma {:induction false} FailsafeOnlyAtTheEnd(settings: Nod.Settings, failsafe: bool, start: real, looks: seq<Nod.Look>, k: nat)
    requires k <= |looks| && Nod.After(settings, start, looks, k).1 == None
    ensures Nod.After(settings.(failsafe := failsafe), start, looks, k) == Nod.After(settings, start, looks, k)
  {
    hide Nod.Prepared, Nod.Movement, Nod.DominantAxis, Nod.Recorded;
    if k > 0 {
      FailsafeOnlyAtTheEnd(settings, failsafe, start, looks, k - 1);
    }
  }

  lemma TimedOutNod(settings: Nod.Settings, start: real, looks: seq<Nod.Look>, k: nat)
    requires k < |looks| && Nod.After(settings, start, looks, k).1 == None && looks[k].testedAt >= start + settings.timeout
    ensures Nod.After(settings, start, looks, |looks|).1 == Some(!settings.failsafe)
  {
    hide Nod.Turn;
    Nod.StaysDecided(settings, start, looks, k + 1, |looks|);
  }

  /** faildeadly in another spelling is two things at once: a crash of the stamp lets the user through, as
      faildeadly does, but a nod that times out denies, as failsafe does. */
  lemma OtherSpellingSplits(word: string, settings: Nod.Settings, start: real, looks: seq<Nod.Look>, k: nat)
    requires Lower(word) == "faildeadly" && word != "faildeadly"
    requires k < |looks| && Nod.After(settings, start, looks, k).1 == None && looks[k].testedAt >= start + settings.timeout
    ensures !Rubberstamps.Denies(Rubberstamps.Parsed(word, Rubberstamps.Runs(Rubberstamps.Crashes)))
    ensures Rubberstamps.Denies(NodRule(word, settings, start, looks))
    ensures !Rubberstamps.Denies(NodRule("faildeadly", settings, start, looks))
  {
    hide Nod.After, Lower;
    FailsafeOnlyAtTheEnd(settings, true, start, looks, k);
    FailsafeOnlyAtTheEnd(settings, false, start, looks, k);
    TimedOutNod(settings.(failsafe := true), start, looks, k);
    TimedOutNod(settings.(failsafe := false), start, looks, k);
  }
}
