/** The scan loop of ubuntu-hello/src/compare.py, from the first frame to the exit
    code. A frame is what the loop looks at: its darkness and, for a usable frame,
    the best distance of each face in it. */
module ScanLoop {
  import opened Options

  /** darkness is the percentage in the darkest histogram bin, 100 for an empty frame. */
  datatype Frame = Frame(darkness: real, faces: seq<real>)

  /** One turn of the loop: the clock at its time check, the frame it read, and the
      clock when a first usable frame starts the recognition window. */
  datatype Turn = Turn(now: real, frame: Frame, usableAt: real)

  datatype Config = Config(
    timeout: real,
    configuredAcquisition: real,
    darkThreshold: real,
    certainty: real,
    configuredConfirmations: int)

  function Max(a: real, b: real): (m: real)
    ensures m >= a && m >= b && m in {a, b}
  {
    if a >= b then a else b
  }

  /** max(1, confirmations) */
  function Needed(c: Config): (n: nat)
    ensures n >= 1 && n >= c.configuredConfirmations && n in {1, c.configuredConfirmations}
  {
    if c.configuredConfirmations > 1 then c.configuredConfirmations else 1
  }

  /** A negative acquisition_timeout is derived from the timeout. */
  function Acquisition(c: Config): real
  {
    if c.configuredAcquisition < 0.0 then Max(c.timeout * 2.0, c.timeout + 6.0) else c.configuredAcquisition
  }

  datatype State = State(
    frames: nat,
    validFrames: nat,
    darkTries: nat,
    blackTries: nat,
    scanStart: Option<real>,
    lowest: real,
    seen: nat)

  const START := State(0, 0, 0, 0, None, 10.0, 0)

  /** Matched: enough frames agreed; what the process then exits with is up to the stamps. */
  datatype Outcome = Running | TimedOut(code: int) | Matched

  datatype TimeoutKind = Recognition | AcquisitionKind

  function RecognitionTimeoutKind(now: real, loopStart: real, scanStart: Option<real>, timeout: real, acquisition: real):
    Option<TimeoutKind>
  {
    match scanStart
    case None => if now - loopStart >= acquisition then Some(AcquisitionKind) else None
    case Some(start) => if now - start >= timeout then Some(Recognition) else None
  }

  // ------------------------------------------------ frames, independently

  predicate Black(f: Frame)
  {
    f.darkness == 100.0
  }

  predicate Dark(c: Config, f: Frame)
  {
    !Black(f) && f.darkness > c.darkThreshold
  }

  predicate Usable(c: Config, f: Frame)
  {
    !Black(f) && f.darkness <= c.darkThreshold
  }

  /** 0 < match < video_certainty: an exact zero does not count. */
  predicate FaceMatches(c: Config, distance: real)
  {
    0.0 < distance < c.certainty
  }

  predicate HasMatch(c: Config, faces: seq<real>)
  {
    exists i :: 0 <= i < |faces| && FaceMatches(c, faces[i])
  }

  predicate FrameMatches(c: Config, f: Frame)
  {
    Usable(c, f) && HasMatch(c, f.faces)
  }

  /** The boundaries: a frame at the threshold is usable and one wholly in the darkest bin is not; a distance of
      zero, or of the certainty itself, is no match. */
  lemma Boundaries(c: Config, f: Frame)
    ensures f.darkness == c.darkThreshold && f.darkness != 100.0 ==> Usable(c, f)
    ensures f.darkness == 100.0 || f.darkness > c.darkThreshold ==> !FrameMatches(c, f)
    ensures (forall i :: 0 <= i < |f.faces| ==> f.faces[i] <= 0.0 || f.faces[i] >= c.certainty) ==> !FrameMatches(c, f)
    ensures Usable(c, f) && (exists i :: 0 <= i < |f.faces| && 0.0 < f.faces[i] < c.certainty) ==> FrameMatches(c, f)
  {
    if i :| 0 <= i < |f.faces| && 0.0 < f.faces[i] < c.certainty {
      assert FaceMatches(c, f.faces[i]);
    }
  }

  /** The faces the loop looks at: up to and including the first match. */
  function Looked(c: Config, faces: seq<real>): seq<real>
  {
    if faces == [] then []
    else if FaceMatches(c, faces[0]) then [faces[0]]
    else [faces[0]] + Looked(c, faces[1..])
  }

  function Min(a: real, b: real): (m: real)
    ensures m <= a && m <= b && m in {a, b}
  {
    if a > b then b else a
  }

  function MinOver(low: real, distances: seq<real>): real
    decreases distances
  {
    if distances == [] then low else MinOver(Min(low, distances[0]), distances[1..])
  }

  // -------------------------------------------------------- one turn, all turns

  function TurnState(c: Config, s: State, t: Turn): State
  {
    var counted := s.(frames := s.frames + 1);
    if Black(t.frame) then counted.(blackTries := s.blackTries + 1)
    else if Dark(c, t.frame) then counted.(validFrames := s.validFrames + 1, darkTries := s.darkTries + 1)
    else
      counted.(validFrames := s.validFrames + 1,
               scanStart := if s.scanStart == None then Some(t.usableAt) else s.scanStart,
               lowest := MinOver(s.lowest, Looked(c, t.frame.faces)),
               seen := s.seen + if HasMatch(c, t.frame.faces) then 1 else 0)
  }

  predicate TimesOut(c: Config, loopStart: real, s: State, now: real)
  {
    match s.scanStart
    case None => now - loopStart >= Acquisition(c)
    case Some(start) => now - start >= c.timeout
  }

  /** The state and outcome after the turns, as a fold. */
  function Scan(c: Config, loopStart: real, turns: seq<Turn>): (State, Outcome)
  {
    if turns == [] then (START, Running)
    else
      var (s, o) := Scan(c, loopStart, turns[..|turns| - 1]);
      var t := turns[|turns| - 1];
      if o != Running then (s, o)
      else if TimesOut(c, loopStart, s, t.now) then
        (s.(frames := s.frames + 1), TimedOut(if s.scanStart == None then 13 else 11))
      else
        var s' := TurnState(c, s, t);
        (s', if s'.seen > s.seen && s'.seen >= Needed(c) then Matched else Running)
  }

  /** The per-face loop of one usable frame: the confirmation count goes up at most once. */
  method ScanFaces(c: Config, faces: seq<real>, lowest0: real, seen0: nat)
    returns (lowest: real, seen: nat, matched: bool)
    ensures lowest == MinOver(lowest0, Looked(c, faces))
    ensures seen == seen0 + if HasMatch(c, faces) then 1 else 0
    ensures matched <==> HasMatch(c, faces) && seen >= Needed(c)
  {
    lowest, seen, matched := lowest0, seen0, false;
    var i := 0;
    while i < |faces|
      invariant 0 <= i <= |faces| && seen == seen0 && !matched
      invariant forall n :: 0 <= n < i ==> !FaceMatches(c, faces[n])
      invariant MinOver(lowest, Looked(c, faces[i..])) == MinOver(lowest0, Looked(c, faces))
    {
      var distance := faces[i];
      assert faces[i..][1..] == faces[i + 1..];
      if lowest > distance {
        lowest := distance;
      }
      if FaceMatches(c, distance) {
        assert Looked(c, faces[i..])[1..] == [];
        seen := seen + 1;
        if seen < Needed(c) {
          return;
        }
        matched := true;
        return;
      }
      assert Looked(c, faces[i..])[1..] == Looked(c, faces[i + 1..]);
      i := i + 1;
    }
  }

  /** The loop on the turns the camera and the clock provide; it leaves at the first
      time-out or at the deciding match. */
  method RunScan(c: Config, loopStart: real, turns: seq<Turn>) returns (s: State, outcome: Outcome)
    ensures (s, outcome) == Scan(c, loopStart, turns)
  {
    var frames, validFrames, darkTries, blackTries, seen := 0, 0, 0, 0, 0;
    var scanStart: Option<real> := None;
    var lowest := 10.0;
    outcome := Running;
    var i := 0;
    while i < |turns| && outcome == Running
      invariant 0 <= i <= |turns|
      invariant (State(frames, validFrames, darkTries, blackTries, scanStart, lowest, seen), outcome)
                == Scan(c, loopStart, turns[..i])
      invariant validFrames - darkTries >= 0 && (scanStart == None <==> darkTries == validFrames)
    {
      var t := turns[i];
      assert turns[..i + 1][..i] == turns[..i];
      i := i + 1;
      frames := frames + 1;
      var kind := RecognitionTimeoutKind(t.now, loopStart, scanStart, c.timeout, Acquisition(c));
      if kind.Some? {
        outcome := TimedOut(if kind == Some(AcquisitionKind) || darkTries == validFrames then 13 else 11);
        continue;
      }
      if Black(t.frame) {
        blackTries := blackTries + 1;
        continue;
      }
      validFrames := validFrames + 1;
      if t.frame.darkness > c.darkThreshold {
        darkTries := darkTries + 1;
        continue;
      }
      if scanStart == None {
        scanStart := Some(t.usableAt);
      }
      var matched;
      lowest, seen, matched := ScanFaces(c, t.frame.faces, lowest, seen);
      if matched {
        outcome := Matched;
      }
    }
    s := State(frames, validFrames, darkTries, blackTries, scanStart, lowest, seen);
    ScanStops(c, loopStart, turns, i);
  }

  /** Once the loop has left, further turns change nothing. */
  lemma {:induction false} ScanStops(c: Config, loopStart: real, turns: seq<Turn>, i: nat)
    requires i <= |turns| && (i == |turns| || Scan(c, loopStart, turns[..i]).1 != Running)
    ensures Scan(c, loopStart, turns) == Scan(c, loopStart, turns[..i])
    decreases |turns|
  {
    if i < |turns| {
      var shorter := turns[..|turns| - 1];
      assert shorter[..i] == turns[..i];
      ScanStops(c, loopStart, shorter, i);
    } else {
      assert turns[..i] == turns;
    }
  }

  // ------------------------------------------------------ what the loop decides

  function MatchingFrames(c: Config, turns: seq<Turn>): nat
  {
    if turns == [] then 0
    else MatchingFrames(c, turns[..|turns| - 1]) + if FrameMatches(c, turns[|turns| - 1].frame) then 1 else 0
  }

  predicate UsableSeen(c: Config, turns: seq<Turn>)
  {
    exists i :: 0 <= i < |turns| && Usable(c, turns[i].frame)
  }

  /** The clock of the first usable frame. */
  function RecognitionStart(c: Config, turns: seq<Turn>): Option<real>
  {
    if turns == [] then None
    else if Usable(c, turns[0].frame) then Some(turns[0].usableAt)
    else RecognitionStart(c, turns[1..])
  }

  /** No time check among the turns fires. */
  predicate InTime(c: Config, loopStart: real, turns: seq<Turn>)
  {
    forall i :: 0 <= i < |turns| ==>
      match RecognitionStart(c, turns[..i])
      case None => turns[i].now - loopStart < Acquisition(c)
      case Some(start) => turns[i].now - start < c.timeout
  }

  function AllLooked(c: Config, turns: seq<Turn>): seq<real>
  {
    if turns == [] then []
    else AllLooked(c, turns[..|turns| - 1])
         + if Usable(c, turns[|turns| - 1].frame) then Looked(c, turns[|turns| - 1].frame.faces) else []
  }

  lemma {:induction false} RecognitionStartAppend(c: Config, turns: seq<Turn>, t: Turn)
    ensures RecognitionStart(c, turns + [t])
            == (if RecognitionStart(c, turns).Some? then RecognitionStart(c, turns)
                else if Usable(c, t.frame) then Some(t.usableAt) else None)
    ensures RecognitionStart(c, turns).Some? <==> UsableSeen(c, turns)
  {
    if turns == [] {
      assert [t][1..] == [];
      assert turns + [t] == [t];
    } else {
      assert (turns + [t])[1..] == turns[1..] + [t];
      RecognitionStartAppend(c, turns[1..], t);
      if Usable(c, turns[0].frame) {
        assert UsableSeen(c, turns);
      } else {
        assert forall i :: 1 <= i < |turns| ==> turns[i] == turns[1..][i - 1];
        assert forall i :: 0 <= i < |turns| - 1 ==> turns[1..][i] == turns[i + 1];
      }
    }
  }

  lemma {:induction false} MinOverAppend(low: real, a: seq<real>, b: seq<real>)
    ensures MinOver(low, a + b) == MinOver(MinOver(low, a), b)
    decreases a
  {
    if a == [] {
      assert a + b == b;
    } else {
      assert (a + b)[1..] == a[1..] + b;
      MinOverAppend(Min(low, a[0]), a[1..], b);
    }
  }

  lemma InTimeAppend(c: Config, loopStart: real, before: seq<Turn>, t: Turn)
    ensures InTime(c, loopStart, before + [t])
            <==> InTime(c, loopStart, before)
                 && match RecognitionStart(c, before)
                    case None => t.now - loopStart < Acquisition(c)
                    case Some(start) => t.now - start < c.timeout
  {
    hide RecognitionStart, Acquisition;
    var turns, n := before + [t], |before|;
    assert turns[..n] == before && turns[n] == t;
    assert forall i :: 0 <= i < n ==> turns[..i] == before[..i] && turns[i] == before[i];
    if InTime(c, loopStart, turns) {
      forall i | 0 <= i < n
        ensures match RecognitionStart(c, before[..i])
                case None => before[i].now - loopStart < Acquisition(c)
                case Some(start) => before[i].now - start < c.timeout
      {
        assert turns[..i] == before[..i] && turns[i] == before[i];
      }
    }
  }

  /** What the counters say about the turns so far: the recognition clock is that of
      the first usable frame, and unset exactly while every counted frame was dark; each
      frame counted at most once; lowest is the minimum of the distances looked at. */
  predicate CountersAreExact(c: Config, turns: seq<Turn>, s: State)
  {
    && s.frames == |turns| == s.blackTries + s.validFrames
    && s.darkTries <= s.validFrames
    && s.scanStart == RecognitionStart(c, turns)
    && (s.scanStart == None <==> s.darkTries == s.validFrames)
    && s.seen == MatchingFrames(c, turns)
    && s.lowest == MinOver(10.0, AllLooked(c, turns))
  }

  lemma TurnKeepsCounters(c: Config, before: seq<Turn>, s: State, t: Turn)
    requires CountersAreExact(c, before, s)
    ensures CountersAreExact(c, before + [t], TurnState(c, s, t))
  {
    hide FaceMatches;
    var turns := before + [t];
    assert turns[..|turns| - 1] == before;
    RecognitionStartAppend(c, before, t);
    MinOverAppend(10.0, AllLooked(c, before), if Usable(c, t.frame) then Looked(c, t.frame.faces) else []);
  }

  lemma {:induction false} WhileRunning(c: Config, loopStart: real, turns: seq<Turn>)
    requires Scan(c, loopStart, turns).1 == Running
    ensures CountersAreExact(c, turns, Scan(c, loopStart, turns).0)
    ensures MatchingFrames(c, turns) < Needed(c) && InTime(c, loopStart, turns)
    decreases turns
  {
    hide CountersAreExact, TurnState, InTime, TimesOut;
    if turns == [] {
      NoTurns(c, loopStart);
    } else {
      var before, t := turns[..|turns| - 1], turns[|turns| - 1];
      WhileRunning(c, loopStart, before);
      assert turns == before + [t];
      TurnKeepsCounters(c, before, Scan(c, loopStart, before).0, t);
      OneMoreTurn(c, loopStart, before, Scan(c, loopStart, before).0, t);
    }
  }

  lemma NoTurns(c: Config, loopStart: real)
    ensures CountersAreExact(c, [], START) && InTime(c, loopStart, [])
  {
  }

  lemma OneMoreTurn(c: Config, loopStart: real, before: seq<Turn>, s: State, t: Turn)
    requires CountersAreExact(c, before, s) && InTime(c, loopStart, before)
    requires CountersAreExact(c, before + [t], TurnState(c, s, t))
    ensures InTime(c, loopStart, before + [t]) <==> !TimesOut(c, loopStart, s, t.now)
    ensures MatchingFrames(c, before + [t]) == TurnState(c, s, t).seen
    ensures FrameMatches(c, t.frame) <==> TurnState(c, s, t).seen > s.seen
  {
    hide FaceMatches, MinOver, AllLooked, Looked, RecognitionStart, MatchingFrames, InTime;
    InTimeAppend(c, loopStart, before, t);
  }

  /** How the loop leaves, or does not, at the turn t that follows a running prefix:
      exactly when a time check fires, with 13 if and only if no usable frame was ever
      seen, and otherwise exactly at the frame that completes the matches needed. */
  lemma LeavesExactly(c: Config, loopStart: real, before: seq<Turn>, t: Turn)
    requires Scan(c, loopStart, before).1 == Running
    ensures Scan(c, loopStart, before + [t]).1
            == (if !InTime(c, loopStart, before + [t]) then TimedOut(if UsableSeen(c, before) then 11 else 13)
                else if MatchingFrames(c, before + [t]) == Needed(c) then Matched
                else Running)
    ensures Scan(c, loopStart, before + [t]).1 == Matched ==> FrameMatches(c, t.frame)
  {
    hide FaceMatches, InTime, TimesOut, MatchingFrames, TurnState, HasMatch;
    var turns, s := before + [t], Scan(c, loopStart, before).0;
    assert turns[..|turns| - 1] == before;
    WhileRunning(c, loopStart, before);
    TurnKeepsCounters(c, before, s, t);
    OneMoreTurn(c, loopStart, before, s, t);
    RecognitionStartAppend(c, before, t);
    CountStep(c, before, t);
  }

  /** How long the loop waits for a first usable frame: the configured time; when that is negative,
      as long as twice the timeout or six seconds more than the timeout have not both passed. */
  lemma WaitsForFirstFrame(c: Config, loopStart: real, before: seq<Turn>, t: Turn)
    requires Scan(c, loopStart, before).1 == Running && !UsableSeen(c, before)
    ensures Scan(c, loopStart, before + [t]).1 == TimedOut(13)
            <==> if c.configuredAcquisition >= 0.0 then t.now >= loopStart + c.configuredAcquisition
                 else t.now >= loopStart + 2.0 * c.timeout && t.now >= loopStart + c.timeout + 6.0
    ensures Scan(c, loopStart, before + [t]).1 != TimedOut(11)
  {
    hide InTime, MatchingFrames, UsableSeen, Scan, RecognitionStart;
    WhileRunning(c, loopStart, before);
    LeavesExactly(c, loopStart, before, t);
    InTimeAppend(c, loopStart, before, t);
    RecognitionStartAppend(c, before, t);
  }

  /** And how long it goes on after the first usable frame, the k-th: for the timeout, from the time of that frame. */
  lemma RecognisesForTheTimeout(c: Config, loopStart: real, before: seq<Turn>, t: Turn, k: nat)
    requires Scan(c, loopStart, before).1 == Running
    requires k < |before| && Usable(c, before[k].frame) && forall i :: 0 <= i < k ==> !Usable(c, before[i].frame)
    ensures Scan(c, loopStart, before + [t]).1 == TimedOut(11) <==> t.now >= before[k].usableAt + c.timeout
    ensures Scan(c, loopStart, before + [t]).1 != TimedOut(13)
  {
    hide InTime, MatchingFrames, Scan, RecognitionStart;
    WhileRunning(c, loopStart, before);
    LeavesExactly(c, loopStart, before, t);
    InTimeAppend(c, loopStart, before, t);
    FirstUsable(c, before, k);
  }

  lemma {:induction false} FirstUsable(c: Config, turns: seq<Turn>, k: nat)
    requires k < |turns| && Usable(c, turns[k].frame) && forall i :: 0 <= i < k ==> !Usable(c, turns[i].frame)
    ensures RecognitionStart(c, turns) == Some(turns[k].usableAt)
    decreases k
  {
    if k > 0 {
      assert turns[1..][k - 1] == turns[k];
      FirstUsable(c, turns[1..], k - 1);
    }
  }

  lemma CountStep(c: Config, before: seq<Turn>, t: Turn)
    ensures MatchingFrames(c, before + [t]) == MatchingFrames(c, before) + if FrameMatches(c, t.frame) then 1 else 0
  {
    assert (before + [t])[..|before|] == before;
  }

  /** The loop still runs after the turns exactly when every time check held and too few frames matched. */
  lemma {:induction false} RunsExactlyWhile(c: Config, loopStart: real, turns: seq<Turn>)
    ensures Scan(c, loopStart, turns).1 == Running
            <==> InTime(c, loopStart, turns) && MatchingFrames(c, turns) < Needed(c)
    decreases turns
  {
    hide InTime, FrameMatches, Scan;
    if turns == [] {
      assert Scan(c, loopStart, []).1 == Running by { EmptyScan(c, loopStart); }
      NoTurns(c, loopStart);
    } else {
      var before, t := turns[..|turns| - 1], turns[|turns| - 1];
      assert turns == before + [t];
      RunsExactlyWhile(c, loopStart, before);
      InTimeAppend(c, loopStart, before, t);
      CountStep(c, before, t);
      if Scan(c, loopStart, before).1 == Running {
        LeavesExactly(c, loopStart, before, t);
      } else {
        ScanStops(c, loopStart, turns, |before|);
      }
    }
  }

  lemma EmptyScan(c: Config, loopStart: real)
    ensures Scan(c, loopStart, []) == (START, Running)
  {
  }

  function MatchingIndices(c: Config, turns: seq<Turn>): set<nat>
  {
    set i: nat | i < |turns| && FrameMatches(c, turns[i].frame)
  }

  lemma {:induction false} CountIsCardinality(c: Config, turns: seq<Turn>)
    ensures |MatchingIndices(c, turns)| == MatchingFrames(c, turns)
    decreases turns
  {
    hide FrameMatches;
    if turns == [] {
      assert MatchingIndices(c, turns) == {};
    } else {
      var n := |turns| - 1;
      var before := turns[..n];
      CountIsCardinality(c, before);
      assert MatchingIndices(c, turns)
          == MatchingIndices(c, before) + if FrameMatches(c, turns[n].frame) then {n} else {};
    }
  }

  /** A match means that the needed number of different usable frames held a matching face. */
  lemma {:induction false} MatchedMeans(c: Config, loopStart: real, turns: seq<Turn>)
    requires Scan(c, loopStart, turns).1 == Matched
    ensures |MatchingIndices(c, turns)| >= Needed(c)
    decreases turns
  {
    hide FrameMatches, InTime, MatchingIndices;
    assert turns != [] by { EmptyScan(c, loopStart); }
    var before, t := turns[..|turns| - 1], turns[|turns| - 1];
    assert turns == before + [t];
    CountIsCardinality(c, turns);
    CountIsCardinality(c, before);
    CountStep(c, before, t);
    if Scan(c, loopStart, before).1 == Running {
      LeavesExactly(c, loopStart, before, t);
    } else {
      MatchedMeans(c, loopStart, before);
    }
  }

  // ------------------------------------------------------------ the time bound

  /** The clock is monotone and no turn takes longer than d. */
  predicate Clocked(loopStart: real, turns: seq<Turn>, d: real)
  {
    && d >= 0.0
    && (turns != [] ==> loopStart <= turns[0].now <= loopStart + d)
    && (forall i :: 0 <= i < |turns| ==> turns[i].now <= turns[i].usableAt <= turns[i].now + d)
    && (forall i {:trigger turns[i]} :: 0 < i < |turns| ==> turns[i - 1].now <= turns[i].now <= turns[i - 1].now + d)
  }

  /** loop_start + acquisition_timeout + timeout, negative settings counting as zero. */
  function Window(c: Config, loopStart: real): real
  {
    loopStart + Max(Acquisition(c), 0.0) + Max(c.timeout, 0.0)
  }

  lemma {:induction false} StartIsEarly(c: Config, loopStart: real, turns: seq<Turn>, d: real, i: nat)
    requires Clocked(loopStart, turns, d) && InTime(c, loopStart, turns) && i <= |turns|
    requires RecognitionStart(c, turns[..i]).Some?
    ensures RecognitionStart(c, turns[..i]).value < loopStart + Acquisition(c) + d
    decreases i
  {
    hide Acquisition, Usable;
    assert i > 0;
    var t := turns[i - 1];
    assert turns[..i] == turns[..i - 1] + [t];
    RecognitionStartAppend(c, turns[..i - 1], t);
    if RecognitionStart(c, turns[..i - 1]).Some? {
      StartIsEarly(c, loopStart, turns, d, i - 1);
    } else {
      assert t.now - loopStart < Acquisition(c);
    }
  }

  /** A turn whose time check held. */
  lemma CheckedTurn(c: Config, loopStart: real, turns: seq<Turn>, d: real, i: nat)
    requires Clocked(loopStart, turns, d) && InTime(c, loopStart, turns) && i < |turns|
    ensures turns[i].now < Window(c, loopStart) + d
  {
    hide Acquisition, RecognitionStart;
    if RecognitionStart(c, turns[..i]).Some? {
      StartIsEarly(c, loopStart, turns, d, i);
    }
  }

  /** Every stream of frames: the turn at which the loop is, ends before the window
      plus two turns; a time-out is noticed within the same bound. */
  lemma LeavesInTime(c: Config, loopStart: real, before: seq<Turn>, t: Turn, d: real)
    requires Scan(c, loopStart, before).1 == Running && Clocked(loopStart, before + [t], d)
    ensures t.now <= Window(c, loopStart) + 2.0 * d
    ensures !Scan(c, loopStart, before + [t]).1.TimedOut? ==> t.now + d < Window(c, loopStart) + 2.0 * d
  {
    hide Acquisition, RecognitionStart, Clocked, InTime;
    var turns, n := before + [t], |before|;
    WhileRunning(c, loopStart, before);
    ClockedPrefix(loopStart, before, t, d);
    if n > 0 {
      CheckedTurn(c, loopStart, before, d, n - 1);
    }
    LeavesExactly(c, loopStart, before, t);
    if InTime(c, loopStart, turns) {
      CheckedTurn(c, loopStart, turns, d, n);
      assert turns[n] == t;
    }
  }

  lemma ClockedPrefix(loopStart: real, before: seq<Turn>, t: Turn, d: real)
    requires Clocked(loopStart, before + [t], d)
    ensures Clocked(loopStart, before, d) && d >= 0.0
    ensures t.now <= if before == [] then loopStart + d else before[|before| - 1].now + d
  {
    var turns := before + [t];
    assert turns[|before|] == t;
    assert forall i :: 0 <= i < |before| ==> turns[i] == before[i];
  }

  /** So a stream that goes on past the bound has been left. */
  lemma NeverRunsPastTheBound(c: Config, loopStart: real, turns: seq<Turn>, d: real, i: nat)
    requires Clocked(loopStart, turns, d) && i < |turns| && turns[i].now >= Window(c, loopStart) + d
    ensures Scan(c, loopStart, turns).1 != Running
  {
    hide Scan, Clocked, InTime, Window;
    if Scan(c, loopStart, turns).1 == Running {
      WhileRunning(c, loopStart, turns);
      CheckedTurn(c, loopStart, turns, d, i);
      assert false;
    }
  }
}
