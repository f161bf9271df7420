/** ubuntu-hello/src/rubberstamps/nod.py: nod to confirm, shake to abort. */
module Nod {
  import opened Options

  /** The two eye corners the code measures between and the tip of the nose. */
  datatype Landmarks = Landmarks(eyeA: int, eyeB: int, noseX: int, noseY: int)

  /** One turn of the loop: the clock at the loop test, the single face found if any,
      and the clock after finding it. */
  datatype Look = Look(testedAt: real, face: Option<Landmarks>, seenAt: real)

  datatype Settings = Settings(minDistance: real, minDirections: int, timeout: real, failsafe: bool)

  const FACE_GAP_RESET := 0.7

  datatype Axis = X | Y

  function EyeDistance(f: Landmarks): (d: int)
    ensures d > 0
  {
    var d := if f.eyeA >= f.eyeB then f.eyeA - f.eyeB else f.eyeB - f.eyeA;
    if d == 0 then 1 else d
  }

  function Nose(f: Landmarks, axis: Axis): int
  {
    if axis == X then f.noseX else f.noseY
  }

  /** Displacement from the anchor as a percentage of the eye distance. */
  function Movement(f: Landmarks, axis: Axis, anchor: int): real
  {
    (Nose(f, axis) - anchor) as real * 100.0 / EyeDistance(f) as real
  }

  function Abs(r: real): real
  {
    if r < 0.0 then -r else r
  }

  /** max over x then y: y only when it moved strictly further. */
  function DominantAxis(f: Landmarks, anchorX: int, anchorY: int): Axis
  {
    if Abs(Movement(f, Y, anchorY)) > Abs(Movement(f, X, anchorX)) then Y else X
  }

  // ------------------------------------------------- the run as a fold

  /** A recorded direction: from the look the anchor was taken at to the look that cleared the bar. */
  datatype Leg = Leg(from: nat, to: nat, negative: bool)

  /** Anchors are the looks they were taken at. */
  datatype State = State(
    anchorX: Option<nat>, anchorY: Option<nat>, legsX: seq<Leg>, legsY: seq<Leg>, lastSeen: Option<real>)

  const START := State(None, None, [], [], None)

  predicate Sees(looks: seq<Look>, i: nat)
  {
    i < |looks| && looks[i].face.Some?
  }

  predicate Anchored(looks: seq<Look>, s: State)
  {
    && (s.anchorX.Some? ==> Sees(looks, s.anchorX.value))
    && (s.anchorY.Some? ==> Sees(looks, s.anchorY.value))
  }

  function NoseAt(looks: seq<Look>, i: nat, axis: Axis): int
    requires Sees(looks, i)
  {
    Nose(looks[i].face.value, axis)
  }

  /** The anchors a look is measured from. */
  function Prepared(looks: seq<Look>, i: nat, s: State): (s': State)
    requires Sees(looks, i) && Anchored(looks, s)
    ensures Anchored(looks, s') && s'.anchorX.Some? && s'.anchorY.Some?
  {
    var reset := s.lastSeen.Some? && looks[i].seenAt - s.lastSeen.value > FACE_GAP_RESET;
    s.(anchorX := if reset || s.anchorX == None then Some(i) else s.anchorX,
       anchorY := if reset || s.anchorY == None then Some(i) else s.anchorY,
       lastSeen := Some(looks[i].seenAt))
  }

  function Recorded(legs: seq<Leg>, leg: Leg): (r: seq<Leg>)
    ensures r != []
  {
    if legs == [] || legs[|legs| - 1].negative != leg.negative then legs + [leg] else legs
  }

  /** One look at a face: the new state and, when enough directions are recorded, the verdict. */
  function Turn(o: Settings, looks: seq<Look>, i: nat, s: State): (r: (State, Option<bool>))
    requires Sees(looks, i) && Anchored(looks, s)
    ensures Anchored(looks, r.0)
  {
    var p := Prepared(looks, i, s);
    var f := looks[i].face.value;
    var fromX, fromY := p.anchorX.value, p.anchorY.value;
    var axis := DominantAxis(f, NoseAt(looks, fromX, X), NoseAt(looks, fromY, Y));
    if axis == X then
      var m := Movement(f, X, NoseAt(looks, fromX, X));
      if Abs(m) <= o.minDistance then (p, None)
      else
        var legs := Recorded(p.legsX, Leg(fromX, i, m < 0.0));
        (p.(legsX := legs, anchorX := Some(i)), if |legs| >= o.minDirections then Some(false) else None)
    else
      var m := Movement(f, Y, NoseAt(looks, fromY, Y));
      if Abs(m) <= o.minDistance then (p, None)
      else
        var legs := Recorded(p.legsY, Leg(fromY, i, m < 0.0));
        (p.(legsY := legs, anchorY := Some(i)), if |legs| >= o.minDirections then Some(true) else None)
  }

  /** State and result after the first i looks. */
  function After(o: Settings, start: real, looks: seq<Look>, i: nat): (r: (State, Option<bool>))
    requires i <= |looks|
    ensures Anchored(looks, r.0)
  {
    if i == 0 then (START, None)
    else
      var (s, result) := After(o, start, looks, i - 1);
      if result.Some? then (s, result)
      else if looks[i - 1].testedAt >= start + o.timeout then (s, Some(!o.failsafe))
      else if looks[i - 1].face == None then (s, None)
      else Turn(o, looks, i - 1, s)
  }

  function Directions(legs: seq<Leg>): seq<bool>
  {
    seq(|legs|, n requires 0 <= n < |legs| => legs[n].negative)
  }

  function ValueAt(looks: seq<Look>, at: Option<nat>, axis: Axis): Option<int>
    requires at.Some? ==> Sees(looks, at.value)
  {
    match at case None => None case Some(i) => Some(NoseAt(looks, i, axis))
  }

  lemma {:induction false} StaysDecided(o: Settings, start: real, looks: seq<Look>, i: nat, j: nat)
    requires i <= j <= |looks| && After(o, start, looks, i).1.Some?
    ensures After(o, start, looks, j) == After(o, start, looks, i)
    decreases j
  {
    if i < j {
      StaysDecided(o, start, looks, i, j - 1);
    }
  }

  type Anchors = m: map<Axis, Option<int>> | X in m && Y in m witness map[X := None, Y := None]
  type Directed = m: map<Axis, seq<bool>> | X in m && Y in m witness map[X := [], Y := []]

  /** The anchors as positions are those of the looks they were taken at. */
  predicate AnchorsAgree(looks: seq<Look>, s: State, anchor: Anchors)
    requires Anchored(looks, s)
  {
    anchor[X] == ValueAt(looks, s.anchorX, X) && anchor[Y] == ValueAt(looks, s.anchorY, Y)
  }

  predicate DirectionsAgree(s: State, recorded: Directed)
  {
    recorded[X] == Directions(s.legsX) && recorded[Y] == Directions(s.legsY)
  }

  /** _dominant_move: fills missing anchors and picks the axis that moved furthest. */
  method DominantMove(f: Landmarks, given: Anchors) returns (anchor: Anchors, axis: Axis, movement: real)
    ensures anchor == map[X := if given[X] == None then Some(f.noseX) else given[X],
                          Y := if given[Y] == None then Some(f.noseY) else given[Y]]
    ensures axis == DominantAxis(f, anchor[X].value, anchor[Y].value)
    ensures movement == Movement(f, axis, anchor[axis].value)
  {
    hide Movement, DominantAxis;
    var x := if given[X] == None then Some(f.noseX) else given[X];
    var y := if given[Y] == None then Some(f.noseY) else given[Y];
    anchor := map[X := x, Y := y];
    axis := DominantAxis(f, x.value, y.value);
    assert axis.X? || axis.Y?;
    movement := Movement(f, axis, anchor[axis].value);
  }

  lemma SameDirections(legs: seq<Leg>, leg: Leg)
    ensures Directions(Recorded(legs, leg))
            == (var d := Directions(legs); if d == [] || d[|d| - 1] != leg.negative then d + [leg.negative] else d)
  {
  }

  /** What Turn does, in the terms of the loop. */
  lemma TurnInLoop(o: Settings, looks: seq<Look>, i: nat, s: State, anchor: Anchors, recorded: Directed, axis: Axis)
    requires Sees(looks, i) && Anchored(looks, s) && DirectionsAgree(s, recorded)
    requires AnchorsAgree(looks, Prepared(looks, i, s), anchor)
    requires anchor[X].Some? && anchor[Y].Some?
    requires axis == DominantAxis(looks[i].face.value, anchor[X].value, anchor[Y].value)
    ensures var f := looks[i].face.value;
            var m := Movement(f, axis, anchor[axis].value);
            var (s', result) := Turn(o, looks, i, s);
            if Abs(m) <= o.minDistance then s' == Prepared(looks, i, s) && result == None
            else
              var d := recorded[axis];
              var d' := if d == [] || d[|d| - 1] != (m < 0.0) then d + [m < 0.0] else d;
              && DirectionsAgree(s', recorded[axis := d'])
              && AnchorsAgree(looks, s', anchor[axis := Some(Nose(f, axis))])
              && s'.lastSeen == Some(looks[i].seenAt)
              && result == if |d'| >= o.minDirections then Some(axis == Y) else None
  {
    hide Movement, DominantAxis, Recorded, Directions;
    var p := Prepared(looks, i, s);
    var m := Movement(looks[i].face.value, axis, anchor[axis].value);
    SameDirections(p.legsX, Leg(p.anchorX.value, i, m < 0.0));
    SameDirections(p.legsY, Leg(p.anchorY.value, i, m < 0.0));
    SameLength(Recorded(p.legsX, Leg(p.anchorX.value, i, m < 0.0)));
    SameLength(Recorded(p.legsY, Leg(p.anchorY.value, i, m < 0.0)));
  }

  lemma SameLength(legs: seq<Leg>)
    ensures |Directions(legs)| == |legs|
  {
  }

  /** The body of the loop once a face is found: the anchors are reset after a gap, the move is measured and
      perhaps recorded, and the verdict is given when enough directions are. */
  method Consider(o: Settings, looks: seq<Look>, i: nat, ghost s: State, given: Anchors, before: Directed, lastSeen: Option<real>)
    returns (anchor: Anchors, recorded: Directed, verdict: Option<bool>)
    requires Sees(looks, i) && Anchored(looks, s)
    requires AnchorsAgree(looks, s, given) && DirectionsAgree(s, before) && lastSeen == s.lastSeen
    ensures var r := Turn(o, looks, i, s);
            && AnchorsAgree(looks, r.0, anchor) && DirectionsAgree(r.0, recorded)
            && r.0.lastSeen == Some(looks[i].seenAt) && verdict == r.1
  {
    hide Movement, DominantAxis, Recorded, Directions, Turn;
    var f := looks[i].face.value;
    anchor, recorded, verdict := given, before, None;
    if lastSeen.Some? && looks[i].seenAt - lastSeen.value > FACE_GAP_RESET {
      anchor := map[X := None, Y := None];
    }
    var axis, movement;
    anchor, axis, movement := DominantMove(f, anchor);
    TurnInLoop(o, looks, i, s, anchor, recorded, axis);
    if Abs(movement) <= o.minDistance {
      return;
    }
    var direction := movement < 0.0;
    if recorded[axis] == [] || recorded[axis][|recorded[axis]| - 1] != direction {
      recorded := recorded[axis := recorded[axis] + [direction]];
    }
    anchor := anchor[axis := Some(Nose(f, axis))];
    if |recorded[axis]| >= o.minDirections {
      verdict := Some(axis == Y);
    }
  }

  /** The loop of run(), on anchors and directions as it keeps them. None: the looks ran out first. */
  method RunNod(o: Settings, start: real, looks: seq<Look>) returns (result: Option<bool>)
    ensures result == After(o, start, looks, |looks|).1
  {
    hide Turn, AnchorsAgree, DirectionsAgree;
    var anchor: Anchors := map[X := None, Y := None];
    var recorded: Directed := map[X := [], Y := []];
    var lastSeen: Option<real> := None;
    ghost var s := START;
    NothingRecorded(looks);
    for i := 0 to |looks|
      invariant After(o, start, looks, i) == (s, None)
      invariant AnchorsAgree(looks, s, anchor) && DirectionsAgree(s, recorded) && lastSeen == s.lastSeen
    {
      if looks[i].testedAt >= start + o.timeout {
        StaysDecided(o, start, looks, i + 1, |looks|);
        return Some(!o.failsafe);
      }
      if looks[i].face == None {
        continue;
      }
      anchor, recorded, result := Consider(o, looks, i, s, anchor, recorded, lastSeen);
      lastSeen := Some(looks[i].seenAt);
      s := Turn(o, looks, i, s).0;
      if result.Some? {
        StaysDecided(o, start, looks, i + 1, |looks|);
        return;
      }
    }
    return None;
  }

  lemma NothingRecorded(looks: seq<Look>)
    ensures AnchorsAgree(looks, START, map[X := None, Y := None]) && DirectionsAgree(START, map[X := [], Y := []])
  {
  }

  // ------------------------------------------------------------- soundness

  /** What a recorded leg is: a movement beyond the bar from an earlier nose position. */
  predicate IsLeg(o: Settings, looks: seq<Look>, axis: Axis, leg: Leg)
  {
    && leg.from <= leg.to && Sees(looks, leg.from) && Sees(looks, leg.to)
    && Abs(Movement(looks[leg.to].face.value, axis, NoseAt(looks, leg.from, axis))) > o.minDistance
    && (leg.negative <==> NoseAt(looks, leg.to, axis) < NoseAt(looks, leg.from, axis))
    && (axis == Y ==> NoseAt(looks, leg.to, axis) != NoseAt(looks, leg.from, axis))
  }

  /** The legs of one axis: in time order, strictly alternating. */
  predicate Alternating(o: Settings, looks: seq<Look>, axis: Axis, legs: seq<Leg>)
  {
    && (forall n :: 0 <= n < |legs| ==> IsLeg(o, looks, axis, legs[n]))
    && (forall n :: 0 <= n < |legs| - 1 ==> legs[n].negative != legs[n + 1].negative && legs[n].to <= legs[n + 1].from)
  }

  /** The anchor is no older than the last recorded leg and not in the future. */
  predicate Fresh(legs: seq<Leg>, anchor: Option<nat>, i: nat)
  {
    && (anchor.Some? ==> anchor.value < i && (legs != [] ==> legs[|legs| - 1].to <= anchor.value))
    && (forall n :: 0 <= n < |legs| ==> legs[n].to < i)
  }

  predicate Sound(o: Settings, looks: seq<Look>, i: nat, s: State)
  {
    && Alternating(o, looks, X, s.legsX) && Fresh(s.legsX, s.anchorX, i)
    && Alternating(o, looks, Y, s.legsY) && Fresh(s.legsY, s.anchorY, i)
  }

  lemma MovementSign(f: Landmarks, axis: Axis, anchor: int)
    ensures Movement(f, axis, anchor) < 0.0 <==> Nose(f, axis) < anchor
    ensures Movement(f, axis, anchor) == 0.0 <==> Nose(f, axis) == anchor
  {
    var d, e := (Nose(f, axis) - anchor) as real, EyeDistance(f) as real;
    var m := Movement(f, axis, anchor);
    assert m * e == d * 100.0;
    if d < 0.0 {
      assert m < 0.0;
    } else if d > 0.0 {
      assert m > 0.0;
    }
  }

  lemma RecordKeepsAlternating(o: Settings, looks: seq<Look>, axis: Axis, legs: seq<Leg>, leg: Leg)
    requires Alternating(o, looks, axis, legs) && IsLeg(o, looks, axis, leg)
    requires legs != [] ==> legs[|legs| - 1].to <= leg.from
    ensures Alternating(o, looks, axis, Recorded(legs, leg))
  {
    hide IsLeg;
  }

  /** A recorded leg that ends at this look leaves the anchor at this look no older than the legs. */
  lemma RecordedIsFresh(legs: seq<Leg>, anchor: Option<nat>, leg: Leg, i: nat)
    requires Fresh(legs, anchor, i) && leg.to == i
    ensures Fresh(Recorded(legs, leg), Some(i), i + 1)
  {
  }

  /** A look that records nothing on an axis: its anchor stays, or is taken at this look. */
  lemma AnchoredIsFresh(legs: seq<Leg>, anchor: Option<nat>, i: nat)
    requires Fresh(legs, anchor, i)
    ensures Fresh(legs, anchor, i + 1) && Fresh(legs, Some(i), i + 1)
  {
  }

  lemma LegFromAnchor(o: Settings, looks: seq<Look>, axis: Axis, legs: seq<Leg>, anchor: Option<nat>, from: nat, i: nat)
    requires Fresh(legs, anchor, i) && Sees(looks, i) && Sees(looks, from) && (from == i || anchor == Some(from))
    requires Abs(Movement(looks[i].face.value, axis, NoseAt(looks, from, axis))) > o.minDistance
    requires axis == Y ==> Movement(looks[i].face.value, axis, NoseAt(looks, from, axis)) != 0.0
    ensures IsLeg(o, looks, axis, Leg(from, i, Movement(looks[i].face.value, axis, NoseAt(looks, from, axis)) < 0.0))
    ensures legs != [] ==> legs[|legs| - 1].to <= from
  {
    hide Movement;
    MovementSign(looks[i].face.value, axis, NoseAt(looks, from, axis));
  }

  lemma TurnIsSound(o: Settings, looks: seq<Look>, i: nat, s: State)
    requires Sees(looks, i) && Anchored(looks, s) && Sound(o, looks, i, s)
    ensures Sound(o, looks, i + 1, Turn(o, looks, i, s).0)
    ensures Turn(o, looks, i, s).1 == Some(true) ==>
              |Turn(o, looks, i, s).0.legsY| >= o.minDirections && Turn(o, looks, i, s).0.legsY != []
    ensures Turn(o, looks, i, s).1 == Some(false) ==> |Turn(o, looks, i, s).0.legsX| >= o.minDirections
  {
    hide Alternating, Movement, Fresh, IsLeg, Recorded;
    var p := Prepared(looks, i, s);
    var f := looks[i].face.value;
    var fromX, fromY := p.anchorX.value, p.anchorY.value;
    AnchoredIsFresh(s.legsX, s.anchorX, i);
    AnchoredIsFresh(s.legsY, s.anchorY, i);
    var mx, my := Movement(f, X, NoseAt(looks, fromX, X)), Movement(f, Y, NoseAt(looks, fromY, Y));
    if DominantAxis(f, NoseAt(looks, fromX, X), NoseAt(looks, fromY, Y)) == X {
      if Abs(mx) > o.minDistance {
        LegFromAnchor(o, looks, X, s.legsX, s.anchorX, fromX, i);
        RecordedIsFresh(s.legsX, s.anchorX, Leg(fromX, i, mx < 0.0), i);
        RecordKeepsAlternating(o, looks, X, p.legsX, Leg(fromX, i, mx < 0.0));
      }
    } else if Abs(my) > o.minDistance {
      LegFromAnchor(o, looks, Y, s.legsY, s.anchorY, fromY, i);
      RecordedIsFresh(s.legsY, s.anchorY, Leg(fromY, i, my < 0.0), i);
      RecordKeepsAlternating(o, looks, Y, p.legsY, Leg(fromY, i, my < 0.0));
    }
  }

  lemma {:induction false} AlwaysSound(o: Settings, start: real, looks: seq<Look>, i: nat)
    requires i <= |looks|
    ensures Sound(o, looks, i, After(o, start, looks, i).0)
    ensures After(o, start, looks, i).1 == Some(true) && o.failsafe ==>
              var legs := After(o, start, looks, i).0.legsY; |legs| >= o.minDirections && legs != []
  {
    hide Turn, Sound;
    if i == 0 {
      NothingIsSound(o, looks);
    } else {
      AlwaysSound(o, start, looks, i - 1);
      var (s, result) := After(o, start, looks, i - 1);
      SoundLater(o, looks, i - 1, s);
      if result == None && looks[i - 1].testedAt < start + o.timeout && looks[i - 1].face.Some? {
        TurnIsSound(o, looks, i - 1, s);
      }
    }
  }

  lemma NothingIsSound(o: Settings, looks: seq<Look>)
    ensures Sound(o, looks, 0, START)
  {
  }

  lemma SoundLater(o: Settings, looks: seq<Look>, i: nat, s: State)
    requires Sound(o, looks, i, s)
    ensures Sound(o, looks, i + 1, s)
  {
    hide Alternating;
  }

  /** Recorded directions strictly alternate on each axis, whatever the trajectory. */
  lemma DirectionsAlternate(o: Settings, start: real, looks: seq<Look>)
    ensures var s := After(o, start, looks, |looks|).0;
            Alternating(o, looks, X, s.legsX) && Alternating(o, looks, Y, s.legsY)
  {
    hide After, Alternating;
    AlwaysSound(o, start, looks, |looks|);
  }

  /** With failsafe on, a confirmation means min_directions alternating y legs, each
      beyond the bar from its own anchor and each later than the one before. */
  lemma ConfirmedMeansNods(o: Settings, start: real, looks: seq<Look>)
    requires o.failsafe && After(o, start, looks, |looks|).1 == Some(true)
    ensures exists legs :: Alternating(o, looks, Y, legs) && |legs| >= o.minDirections && |legs| >= 1
  {
    hide After, Alternating;
    AlwaysSound(o, start, looks, |looks|);
    var legs := After(o, start, looks, |looks|).0.legsY;
    assert Alternating(o, looks, Y, legs);
  }

  ghost predicate RisesInY(looks: seq<Look>)
  {
    forall i: nat, j: nat :: i <= j && Sees(looks, i) && Sees(looks, j) ==> NoseAt(looks, i, Y) <= NoseAt(looks, j, Y)
  }

  ghost predicate FallsInY(looks: seq<Look>)
  {
    forall i: nat, j: nat :: i <= j && Sees(looks, i) && Sees(looks, j) ==> NoseAt(looks, i, Y) >= NoseAt(looks, j, Y)
  }

  lemma OneDirection(o: Settings, looks: seq<Look>, leg: Leg)
    requires (RisesInY(looks) || FallsInY(looks)) && IsLeg(o, looks, Y, leg)
    ensures leg.negative <==> !RisesInY(looks)
  {
    hide Movement;
  }

  lemma TwoLegsDiffer(o: Settings, looks: seq<Look>, axis: Axis, legs: seq<Leg>)
    requires Alternating(o, looks, axis, legs) && |legs| >= 2
    ensures legs[0].negative != legs[1].negative && IsLeg(o, looks, axis, legs[0]) && IsLeg(o, looks, axis, legs[1])
  {
    hide IsLeg;
    assert legs[0].negative != legs[0 + 1].negative;
  }

  /** A nose moving one way in y has at most one leg there, across anchor resets and
      changing eye distance, so it never confirms when two directions are needed. */
  lemma OneWayNeverConfirms(o: Settings, start: real, looks: seq<Look>)
    requires RisesInY(looks) || FallsInY(looks)
    ensures |After(o, start, looks, |looks|).0.legsY| <= 1
    ensures o.failsafe && o.minDirections >= 2 ==> After(o, start, looks, |looks|).1 != Some(true)
  {
    hide After, Alternating, IsLeg, RisesInY, FallsInY;
    AlwaysSound(o, start, looks, |looks|);
    var legs := After(o, start, looks, |looks|).0.legsY;
    if |legs| >= 2 {
      TwoLegsDiffer(o, looks, Y, legs);
      OneDirection(o, looks, legs[0]);
      OneDirection(o, looks, legs[1]);
      assert false;
    }
  }

  // ---------------------------------------------------------- completeness

  function Other(axis: Axis): Axis
  {
    if axis == X then Y else X
  }

  function AnchorOf(s: State, axis: Axis): Option<nat>
  {
    if axis == X then s.anchorX else s.anchorY
  }

  function LegsOf(s: State, axis: Axis): seq<Leg>
  {
    if axis == X then s.legsX else s.legsY
  }

  /** The nose is further from where it was at an earlier look than min_distance percent of the distance between the
      eyes at this look; eyes at one place count as one apart. */
  predicate Beyond(o: Settings, looks: seq<Look>, axis: Axis, from: nat, i: nat)
    requires Sees(looks, from) && Sees(looks, i)
  {
    var f := looks[i].face.value;
    var eyes := if f.eyeA > f.eyeB then f.eyeA - f.eyeB else if f.eyeA < f.eyeB then f.eyeB - f.eyeA else 1;
    var moved := NoseAt(looks, i, axis) - NoseAt(looks, from, axis);
    100.0 * moved as real > o.minDistance * eyes as real || -100.0 * moved as real > o.minDistance * eyes as real
  }

  lemma Ratio(m: real, k: real, e: real, bar: real)
    requires e > 0.0 && m == k / e
    ensures m > bar <==> k > bar * e
    ensures -m > bar <==> -k > bar * e
  {
    assert k == m * e;
    if m > bar {
      assert (m - bar) * e > 0.0;
    } else {
      assert (bar - m) * e >= 0.0;
    }
    if -m > bar {
      assert (-m - bar) * e > 0.0;
    } else {
      assert (bar + m) * e >= 0.0;
    }
  }

  lemma BeyondIsMovement(o: Settings, looks: seq<Look>, axis: Axis, from: nat, i: nat)
    requires Sees(looks, from) && Sees(looks, i) && o.minDistance >= 0.0
    ensures var m := Movement(looks[i].face.value, axis, NoseAt(looks, from, axis));
            && (Abs(m) > o.minDistance <==> Beyond(o, looks, axis, from, i))
            && (m < 0.0 <==> NoseAt(looks, i, axis) < NoseAt(looks, from, axis))
            && (m == 0.0 <==> NoseAt(looks, i, axis) == NoseAt(looks, from, axis))
  {
    var f := looks[i].face.value;
    var moved := NoseAt(looks, i, axis) - NoseAt(looks, from, axis);
    MovementSign(f, axis, NoseAt(looks, from, axis));
    Ratio(Movement(f, axis, NoseAt(looks, from, axis)), moved as real * 100.0, EyeDistance(f) as real, o.minDistance);
  }

  /** A face not seen for more than 0.7 seconds: whatever was anchored before, both anchors are
      taken at this look, and it records nothing. */
  lemma LongGapTakesNewAnchors(o: Settings, start: real, looks: seq<Look>, i: nat)
    requires i < |looks| && looks[i].face.Some? && looks[i].testedAt < start + o.timeout && o.minDistance >= 0.0
    requires After(o, start, looks, i).1 == None
    requires var s := After(o, start, looks, i).0; s.lastSeen.Some? && looks[i].seenAt - s.lastSeen.value > 0.7
    ensures var (s, s') := (After(o, start, looks, i).0, After(o, start, looks, i + 1).0);
            s'.anchorX == Some(i) && s'.anchorY == Some(i) && s'.legsX == s.legsX && s'.legsY == s.legsY
    ensures After(o, start, looks, i + 1).1 == None
  {
    hide Movement, Recorded, Sees;
    assert Sees(looks, i) by { FaceIsSeen(looks, i); }
    BeyondIsMovement(o, looks, X, i, i);
    BeyondIsMovement(o, looks, Y, i, i);
  }

  lemma FaceIsSeen(looks: seq<Look>, i: nat)
    requires i < |looks| && looks[i].face.Some?
    ensures Sees(looks, i)
  {
  }

  function Distance(a: int, b: int): nat
  {
    if a >= b then a - b else b - a
  }

  /** Which axis counts does not depend on the eyes: y exactly if the nose went strictly further there than in x. */
  lemma FurtherAxis(f: Landmarks, anchorX: int, anchorY: int)
    ensures DominantAxis(f, anchorX, anchorY) == Y <==> Distance(f.noseY, anchorY) > Distance(f.noseX, anchorX)
  {
    var e := EyeDistance(f) as real;
    MovementSign(f, X, anchorX);
    MovementSign(f, Y, anchorY);
    var bar := Abs(Movement(f, X, anchorX));
    Ratio(Movement(f, Y, anchorY), (f.noseY - anchorY) as real * 100.0, e, bar);
    var k := (f.noseX - anchorX) as real * 100.0;
    assert bar * e == if k < 0.0 then -k else k;
  }

  /** A shorter gap, up to 0.7 seconds: an anchor stays where it was taken, and moves to this look exactly if the
      nose is beyond the bar from it and went further along this axis than along the other, y needing strictly further. */
  lemma ShortGapKeepsAnchors(o: Settings, start: real, looks: seq<Look>, i: nat, axis: Axis)
    requires i < |looks| && looks[i].face.Some? && looks[i].testedAt < start + o.timeout && o.minDistance >= 0.0
    requires var (s, result) := After(o, start, looks, i);
             && result == None && s.anchorX.Some? && s.anchorY.Some?
             && (s.lastSeen.Some? ==> looks[i].seenAt - s.lastSeen.value <= 0.7)
    ensures var (s, s') := (After(o, start, looks, i).0, After(o, start, looks, i + 1).0);
            var f := looks[i].face.value;
            var a := AnchorOf(s, axis).value;
            var movesY := Distance(f.noseY, NoseAt(looks, s.anchorY.value, Y)) > Distance(f.noseX, NoseAt(looks, s.anchorX.value, X));
            if Beyond(o, looks, axis, a, i) && (axis == Y <==> movesY) then AnchorOf(s', axis) == Some(i)
            else AnchorOf(s', axis) == Some(a) && LegsOf(s', axis) == LegsOf(s, axis)
  {
    hide Movement, Recorded, Beyond, Sees, DominantAxis;
    FaceIsSeen(looks, i);
    var s := After(o, start, looks, i).0;
    FurtherAxis(looks[i].face.value, NoseAt(looks, s.anchorX.value, X), NoseAt(looks, s.anchorY.value, Y));
    BeyondIsMovement(o, looks, axis, AnchorOf(s, axis).value, i);
  }

  /** The last face seen before look i is what gaps are measured from. */
  lemma {:induction false} LastSeenIsLastFace(o: Settings, start: real, looks: seq<Look>, i: nat, j: nat)
    requires j < i <= |looks| && looks[j].face.Some? && forall n :: j < n < i ==> looks[n].face == None
    requires After(o, start, looks, i).1 == None
    ensures After(o, start, looks, i).0.lastSeen == Some(looks[j].seenAt)
    decreases i
  {
    hide Movement, Recorded, DominantAxis;
    if j < i - 1 {
      LastSeenIsLastFace(o, start, looks, i - 1, j);
    }
  }

  /** A look without a face leaves everything as it was, until the time is up. */
  lemma NoFaceChangesNothing(o: Settings, start: real, looks: seq<Look>, i: nat)
    requires i < |looks| && looks[i].face == None && looks[i].testedAt < start + o.timeout
    ensures After(o, start, looks, i + 1) == After(o, start, looks, i)
  {
  }

  predicate AllSeen(looks: seq<Look>, i: nat)
  {
    i <= |looks| && forall j: nat :: j < i ==> Sees(looks, j)
  }

  /** The look from which look i is measured: the last one that was beyond the bar from its own, at first the first. */
  function MeasuredFrom(o: Settings, looks: seq<Look>, axis: Axis, i: nat): (a: nat)
    requires AllSeen(looks, i) && i > 0
    ensures a < i
  {
    if i == 1 then 0
    else
      var a := MeasuredFrom(o, looks, axis, i - 1);
      if Beyond(o, looks, axis, a, i - 1) then i - 1 else a
  }

  /** The directions of all looks before the i-th that were beyond the bar: whether the coordinate fell. */
  function Swings(o: Settings, looks: seq<Look>, axis: Axis, i: nat): seq<bool>
    requires AllSeen(looks, i)
  {
    if i <= 1 then []
    else
      var a := MeasuredFrom(o, looks, axis, i - 1);
      Swings(o, looks, axis, i - 1)
      + if Beyond(o, looks, axis, a, i - 1) then [NoseAt(looks, i - 1, axis) < NoseAt(looks, a, axis)] else []
  }

  /** How many times in a row the same direction was held. */
  function Runs(swings: seq<bool>): nat
  {
    var n := |swings|;
    if n == 0 then 0
    else if n > 1 && swings[n - 1] == swings[n - 2] then Runs(swings[..n - 1])
    else 1 + Runs(swings[..n - 1])
  }

  /** A face at each of the first i looks, the time not up, never away for more than 0.7 seconds,
      and moving along one axis only. */
  predicate Steady(o: Settings, start: real, looks: seq<Look>, axis: Axis, i: nat)
  {
    && AllSeen(looks, i)
    && (forall j: nat :: j < i ==> looks[j].testedAt < start + o.timeout)
    && (forall j: nat {:trigger looks[j]} :: 0 < j < i ==> looks[j].seenAt - looks[j - 1].seenAt <= 0.7)
    && (forall j: nat :: j < i ==> NoseAt(looks, j, Other(axis)) == NoseAt(looks, 0, Other(axis)))
  }

  /** Legs count the runs of the swings, and the last leg goes the way of the last swing. */
  predicate LegsAre(legs: seq<Leg>, swings: seq<bool>)
  {
    && |legs| == Runs(swings)
    && (legs == [] <==> swings == [])
    && (legs != [] ==> legs[|legs| - 1].negative == swings[|swings| - 1])
  }

  lemma RecordedCountsRuns(legs: seq<Leg>, swings: seq<bool>, leg: Leg)
    requires LegsAre(legs, swings)
    ensures LegsAre(Recorded(legs, leg), swings + [leg.negative])
  {
    assert (swings + [leg.negative])[..|swings|] == swings;
  }

  /** One look on a steady trajectory. */
  lemma SteadyTurn(o: Settings, looks: seq<Look>, axis: Axis, i: nat, s: State, a: nat)
    requires Sees(looks, i) && Anchored(looks, s) && o.minDistance >= 0.0
    requires s.lastSeen.Some? && looks[i].seenAt - s.lastSeen.value <= 0.7
    requires AnchorOf(s, axis) == Some(a) && AnchorOf(s, Other(axis)).Some?
    requires NoseAt(looks, i, Other(axis)) == NoseAt(looks, AnchorOf(s, Other(axis)).value, Other(axis))
    ensures var (s', result) := Turn(o, looks, i, s);
            var leg := Leg(a, i, NoseAt(looks, i, axis) < NoseAt(looks, a, axis));
            && s'.lastSeen == Some(looks[i].seenAt) && AnchorOf(s', Other(axis)) == AnchorOf(s, Other(axis))
            && if Beyond(o, looks, axis, a, i) then
                 && AnchorOf(s', axis) == Some(i) && LegsOf(s', axis) == Recorded(LegsOf(s, axis), leg)
                 && result == if |LegsOf(s', axis)| >= o.minDirections then Some(axis == Y) else None
               else AnchorOf(s', axis) == Some(a) && LegsOf(s', axis) == LegsOf(s, axis) && result == None
  {
    hide Movement, Recorded, Beyond, Sees;
    var b := AnchorOf(s, Other(axis)).value;
    BeyondIsMovement(o, looks, axis, a, i);
    BeyondIsMovement(o, looks, Other(axis), b, i);
  }

  lemma FirstLook(o: Settings, start: real, looks: seq<Look>)
    requires Sees(looks, 0) && looks[0].testedAt < start + o.timeout && o.minDistance >= 0.0
    ensures After(o, start, looks, 1) == (State(Some(0), Some(0), [], [], Some(looks[0].seenAt)), None)
  {
    hide Movement, Recorded;
    BeyondIsMovement(o, looks, X, 0, 0);
    BeyondIsMovement(o, looks, Y, 0, 0);
    assert After(o, start, looks, 0) == (START, None);
  }

  /** What the loop keeps on a steady trajectory while it has no verdict. */
  predicate FollowsSwings(o: Settings, looks: seq<Look>, axis: Axis, i: nat, s: State)
    requires AllSeen(looks, i) && i > 0
  {
    && AnchorOf(s, axis) == Some(MeasuredFrom(o, looks, axis, i))
    && AnchorOf(s, Other(axis)) == Some(0)
    && s.lastSeen == Some(looks[i - 1].seenAt)
    && LegsAre(LegsOf(s, axis), Swings(o, looks, axis, i))
  }

  lemma OneMoreSwing(o: Settings, looks: seq<Look>, axis: Axis, i: nat, s: State)
    requires AllSeen(looks, i + 1) && i > 0 && Anchored(looks, s) && o.minDistance >= 0.0
    requires looks[i].seenAt - looks[i - 1].seenAt <= 0.7
    requires NoseAt(looks, i, Other(axis)) == NoseAt(looks, 0, Other(axis))
    requires FollowsSwings(o, looks, axis, i, s) && Runs(Swings(o, looks, axis, i)) < o.minDirections
    ensures FollowsSwings(o, looks, axis, i + 1, Turn(o, looks, i, s).0)
    ensures Turn(o, looks, i, s).1
            == if Runs(Swings(o, looks, axis, i + 1)) >= o.minDirections then Some(axis == Y) else None
  {
    hide Beyond, Turn, Recorded, Sees, Runs;
    FaceBefore(looks, i);
    var a := MeasuredFrom(o, looks, axis, i);
    SteadyTurn(o, looks, axis, i, s, a);
    var swings := Swings(o, looks, axis, i);
    assert swings + [] == swings;
    RecordedCountsRuns(LegsOf(s, axis), swings, Leg(a, i, NoseAt(looks, i, axis) < NoseAt(looks, a, axis)));
  }

  lemma FaceBefore(looks: seq<Look>, i: nat)
    requires AllSeen(looks, i + 1)
    ensures Sees(looks, i) && Sees(looks, 0) && AllSeen(looks, i)
  {
  }

  lemma RunsGrow(swings: seq<bool>, more: seq<bool>)
    requires |more| <= 1
    ensures Runs(swings + more) >= Runs(swings)
  {
    if more == [] {
      assert swings + more == swings;
    } else {
      assert (swings + more)[..|swings|] == swings;
    }
  }

  /** On a steady trajectory the verdict, yes along y and no along x, stands exactly once the swings have
      had the needed number of runs, and none before. */
  lemma {:induction false} SwingsDecide(o: Settings, start: real, looks: seq<Look>, axis: Axis, i: nat)
    requires Steady(o, start, looks, axis, i) && i > 0 && o.minDistance >= 0.0 && o.minDirections >= 1
    ensures After(o, start, looks, i).1 == if Runs(Swings(o, looks, axis, i)) >= o.minDirections then Some(axis == Y) else None
    ensures After(o, start, looks, i).1 == None ==> FollowsSwings(o, looks, axis, i, After(o, start, looks, i).0)
  {
    hide Turn, Beyond, FollowsSwings, Swings, Runs;
    if i == 1 {
      FirstLook(o, start, looks);
      FirstFollows(o, looks, axis);
    } else {
      SwingsDecide(o, start, looks, axis, i - 1);
      SwingsGrow(o, looks, axis, i - 1);
      var (s, result) := After(o, start, looks, i - 1);
      FaceBefore(looks, i - 1);
      if result == None {
        OneMoreSwing(o, looks, axis, i - 1, s);
        assert After(o, start, looks, i) == Turn(o, looks, i - 1, s);
      }
    }
  }

  lemma FirstFollows(o: Settings, looks: seq<Look>, axis: Axis)
    requires AllSeen(looks, 1)
    ensures FollowsSwings(o, looks, axis, 1, State(Some(0), Some(0), [], [], Some(looks[0].seenAt)))
    ensures Runs(Swings(o, looks, axis, 1)) == 0
  {
  }

  lemma SwingsGrow(o: Settings, looks: seq<Look>, axis: Axis, i: nat)
    requires AllSeen(looks, i + 1) && i > 0
    ensures Runs(Swings(o, looks, axis, i + 1)) >= Runs(Swings(o, looks, axis, i))
  {
    hide Beyond, Sees, Runs;
    FaceBefore(looks, i);
    var a := MeasuredFrom(o, looks, axis, i);
    RunsGrow(Swings(o, looks, axis, i), if Beyond(o, looks, axis, a, i) then [NoseAt(looks, i, axis) < NoseAt(looks, a, axis)] else []);
  }

  /** The look is beyond the bar from the one before, and back from where that one had gone. */
  predicate TurnsBack(o: Settings, looks: seq<Look>, axis: Axis, j: nat)
  {
    && j > 0 && Sees(looks, j) && Sees(looks, j - 1) && Beyond(o, looks, axis, j - 1, j)
    && (j > 1 ==>
          Sees(looks, j - 2)
          && (NoseAt(looks, j, axis) < NoseAt(looks, j - 1, axis) <==> NoseAt(looks, j - 1, axis) >= NoseAt(looks, j - 2, axis)))
  }

  predicate Zigzag(o: Settings, looks: seq<Look>, axis: Axis, i: nat)
  {
    AllSeen(looks, i) && forall j: nat :: 0 < j < i ==> TurnsBack(o, looks, axis, j)
  }

  lemma RunsTurn(swings: seq<bool>, falls: bool)
    requires swings != [] ==> swings[|swings| - 1] != falls
    ensures Runs(swings + [falls]) == Runs(swings) + 1
  {
    assert (swings + [falls])[..|swings|] == swings;
  }

  lemma {:induction false} ZigzagSwings(o: Settings, looks: seq<Look>, axis: Axis, i: nat)
    requires Zigzag(o, looks, axis, i) && i > 0
    ensures MeasuredFrom(o, looks, axis, i) == i - 1
    ensures var swings := Swings(o, looks, axis, i);
            && |swings| == Runs(swings) == i - 1
            && (i > 1 ==> Sees(looks, i - 1) && Sees(looks, i - 2)
                          && swings[i - 2] == (NoseAt(looks, i - 1, axis) < NoseAt(looks, i - 2, axis)))
  {
    hide Beyond, Runs, Nose;
    if i == 1 {
      assert Swings(o, looks, axis, 1) == [] && Runs([]) == 0 by { NoRuns(); }
    } else {
      ZigzagSwings(o, looks, axis, i - 1);
      assert TurnsBack(o, looks, axis, i - 1);
      RunsTurn(Swings(o, looks, axis, i - 1), NoseAt(looks, i - 1, axis) < NoseAt(looks, i - 2, axis));
    }
  }

  lemma NoRuns()
    ensures Runs([]) == 0
  {
  }

  /** A nose that goes back and forth: yes along y, no along x, exactly at the look that completes the legs needed. */
  lemma ZigzagDecides(o: Settings, start: real, looks: seq<Look>, axis: Axis, i: nat)
    requires Steady(o, start, looks, axis, i) && Zigzag(o, looks, axis, i)
    requires i > 0 && o.minDistance >= 0.0 && o.minDirections >= 1
    ensures After(o, start, looks, i).1 == if i > o.minDirections then Some(axis == Y) else None
  {
    hide After, Zigzag, Steady, Swings, Runs;
    ZigzagSwings(o, looks, axis, i);
    SwingsDecide(o, start, looks, axis, i);
  }
}
