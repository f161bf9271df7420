/** Guided capture of face descriptors and their flattening, ubuntu-hello/src/enroll_capture.py. */
module Enrolment {

  /** What one read gave: a frame to skip, or the descriptors of the faces found in it. */
  datatype Shot<D> = Unusable | Seen(faces: seq<D>)

  datatype Line = Progress(count: int, total: int) | Guide(key: string) | Prompt(text: string)

  datatype Guidance = Guidance(key: string, prompt: string)

  // ------------------------------------------------------------------ duplicates

  ghost predicate Duplicate<D(!new)>(d: D, existing: seq<D>, dist: (D, D) -> real, tolerance: real)
  {
    exists i :: 0 <= i < |existing| && dist(existing[i], d) < tolerance
  }

  /** is_duplicate: the least distance is below the tolerance. */
  method IsDuplicate<D(!new)>(d: D, existing: seq<D>, dist: (D, D) -> real, tolerance: real) returns (dup: bool)
    ensures dup <==> Duplicate(d, existing, dist, tolerance)
  {
    if existing == [] {
      return false;
    }
    var least := dist(existing[0], d);
    for i := 1 to |existing|
      invariant exists j :: 0 <= j < i && dist(existing[j], d) == least
      invariant forall j :: 0 <= j < i ==> dist(existing[j], d) >= least
    {
      if dist(existing[i], d) < least {
        least := dist(existing[i], d);
      }
    }
    dup := least < tolerance;
  }

  // --------------------------------------------------------------- what is captured

  ghost predicate Keeps<D(!new)>(samples: seq<D>, shot: Shot<D>, dist: (D, D) -> real, tolerance: real)
  {
    shot.Seen? && |shot.faces| == 1 && !Duplicate(shot.faces[0], samples, dist, tolerance)
  }

  /** One guidance step over the shots read before its deadline. */
  ghost function AfterStep<D(!new)>(samples: seq<D>, shots: seq<Shot<D>>, wanted: int, maxSamples: int,
                                    dist: (D, D) -> real, tolerance: real): seq<D>
    decreases |shots|
  {
    if shots == [] || wanted <= 0 || |samples| >= maxSamples then samples
    else if Keeps(samples, shots[0], dist, tolerance) then
      AfterStep(samples + [shots[0].faces[0]], shots[1..], wanted - 1, maxSamples, dist, tolerance)
    else AfterStep(samples, shots[1..], wanted, maxSamples, dist, tolerance)
  }

  ghost function AfterSteps<D(!new)>(samples: seq<D>, steps: seq<seq<Shot<D>>>, perStep: int, maxSamples: int,
                                     dist: (D, D) -> real, tolerance: real): seq<D>
    decreases |steps|
  {
    if steps == [] || |samples| >= maxSamples then samples
    else AfterSteps(AfterStep(samples, steps[0], perStep, maxSamples, dist, tolerance), steps[1..],
                    perStep, maxSamples, dist, tolerance)
  }

  function CountOf(line: Line): seq<int>
  {
    if line.Progress? then [line.count] else []
  }

  /** The counts of the progress lines, in order. */
  function Counts(lines: seq<Line>): seq<int>
  {
    if lines == [] then [] else Counts(lines[..|lines| - 1]) + CountOf(lines[|lines| - 1])
  }

  function OneTo(n: nat): seq<int>
  {
    seq(n, i => i + 1)
  }

  /** The lesser of the cap and what all steps can give. */
  function Total(maxSamples: int, steps: int, perStep: int): (total: int)
    ensures total <= maxSamples && total <= 1 + steps * perStep && total in {maxSamples, 1 + steps * perStep}
  {
    var wanted := 1 + steps * perStep;
    if maxSamples <= wanted then maxSamples else wanted
  }

  /** The progress lines for the samples numbered from + 1 to n. */
  function Announced(from: nat, n: nat, total: int): seq<Line>
    requires from <= n
  {
    seq(n - from, i => Progress(from + i + 1, total))
  }

  /** What is emitted after the first line: each step begun is prompted for, then its samples are counted as they come. */
  ghost function Emitted<D(!new)>(samples: seq<D>, guide: seq<Guidance>, steps: seq<seq<Shot<D>>>, perStep: int,
                                  maxSamples: int, total: int, dist: (D, D) -> real, tolerance: real): seq<Line>
    requires |guide| == |steps|
    decreases |steps|
  {
    if steps == [] || |samples| >= maxSamples then []
    else
      var after := AfterStep(samples, steps[0], perStep, maxSamples, dist, tolerance);
      StepExtends(samples, steps[0], perStep, maxSamples, dist, tolerance);
      [Guide(guide[0].key), Prompt(guide[0].prompt)] + Announced(|samples|, |after|, total)
      + Emitted(after, guide[1..], steps[1..], perStep, maxSamples, total, dist, tolerance)
  }

  /** capture_guided_samples: the list it appends to, and the lines it emits. */
  class Capture<D(!new)> {
    var samples: seq<D>
    var lines: seq<Line>
    const total: int

    constructor (first: D, announced: int)
      ensures samples == [first] && lines == [Progress(1, announced)] && total == announced
    {
      samples := [first];
      total := announced;
      lines := [Progress(1, announced)];
    }

    /** samples.append and on_sample. */
    method Store(d: D)
      modifies this
      ensures samples == old(samples) + [d]
      ensures lines == old(lines) + [Progress(|samples|, total)]
    {
      samples := samples + [d];
      lines := lines + [Progress(|samples|, total)];
    }

    /** _capture_step; the shots are those read before the deadline. */
    method Step(shots: seq<Shot<D>>, wanted: int, maxSamples: int, dist: (D, D) -> real, tolerance: real)
      modifies this
      ensures samples == AfterStep(old(samples), shots, wanted, maxSamples, dist, tolerance)
      ensures |old(samples)| <= |samples| && lines == old(lines) + Announced(|old(samples)|, |samples|, total)
    {
      var got, read := 0, 0;
      while got < wanted && |samples| < maxSamples && read < |shots|
        invariant read <= |shots|
        invariant AfterStep(samples, shots[read..], wanted - got, maxSamples, dist, tolerance)
                  == AfterStep(old(samples), shots, wanted, maxSamples, dist, tolerance)
        invariant |old(samples)| <= |samples| && lines == old(lines) + Announced(|old(samples)|, |samples|, total)
      {
        var shot := shots[read];
        read := read + 1;
        if shot.Unusable? || |shot.faces| != 1 {
          continue;
        }
        var dup := IsDuplicate(shot.faces[0], samples, dist, tolerance);
        if dup {
          continue;
        }
        AnnouncedNext(|old(samples)|, |samples|, total);
        Store(shot.faces[0]);
        got := got + 1;
      }
    }

    method Run(guide: seq<Guidance>, steps: seq<seq<Shot<D>>>, perStep: int, maxSamples: int,
               dist: (D, D) -> real, tolerance: real)
      requires |guide| == |steps|
      modifies this
      ensures samples == AfterSteps(old(samples), steps, perStep, maxSamples, dist, tolerance)
      ensures lines == old(lines) + Emitted(old(samples), guide, steps, perStep, maxSamples, total, dist, tolerance)
    {
      hide AfterStep, AfterSteps, Emitted, Announced;
      var k := 0;
      while k < |steps|
        invariant k <= |steps|
        invariant AfterSteps(samples, steps[k..], perStep, maxSamples, dist, tolerance)
                  == AfterSteps(old(samples), steps, perStep, maxSamples, dist, tolerance)
        invariant lines + Emitted(samples, guide[k..], steps[k..], perStep, maxSamples, total, dist, tolerance)
                  == old(lines) + Emitted(old(samples), guide, steps, perStep, maxSamples, total, dist, tolerance)
      {
        if |samples| >= maxSamples {
          break;
        }
        OneStepOn(samples, guide, steps, k, perStep, maxSamples, total, dist, tolerance);
        lines := lines + [Guide(guide[k].key)];
        lines := lines + [Prompt(guide[k].prompt)];
        Step(steps[k], perStep, maxSamples, dist, tolerance);
        k := k + 1;
      }
      NoStepOn(samples, guide[k..], steps[k..], perStep, maxSamples, total, dist, tolerance);
    }
  }

  lemma NoStepOn<D(!new)>(samples: seq<D>, guide: seq<Guidance>, steps: seq<seq<Shot<D>>>, perStep: int,
                          maxSamples: int, total: int, dist: (D, D) -> real, tolerance: real)
    requires |guide| == |steps| && (steps == [] || |samples| >= maxSamples)
    ensures Emitted(samples, guide, steps, perStep, maxSamples, total, dist, tolerance) == []
    ensures AfterSteps(samples, steps, perStep, maxSamples, dist, tolerance) == samples
  {
  }

  lemma OneStepOn<D(!new)>(samples: seq<D>, guide: seq<Guidance>, steps: seq<seq<Shot<D>>>, k: nat, perStep: int,
                           maxSamples: int, total: int, dist: (D, D) -> real, tolerance: real)
    requires |guide| == |steps| && k < |steps| && |samples| < maxSamples
    ensures var after := AfterStep(samples, steps[k], perStep, maxSamples, dist, tolerance);
            && |samples| <= |after|
            && AfterSteps(samples, steps[k..], perStep, maxSamples, dist, tolerance)
               == AfterSteps(after, steps[k + 1..], perStep, maxSamples, dist, tolerance)
            && Emitted(samples, guide[k..], steps[k..], perStep, maxSamples, total, dist, tolerance)
               == [Guide(guide[k].key), Prompt(guide[k].prompt)] + Announced(|samples|, |after|, total)
                  + Emitted(after, guide[k + 1..], steps[k + 1..], perStep, maxSamples, total, dist, tolerance)
  {
    hide AfterStep, Announced;
    assert steps[k..][1..] == steps[k + 1..] && guide[k..][1..] == guide[k + 1..];
    StepExtends(samples, steps[k], perStep, maxSamples, dist, tolerance);
  }

  lemma AnnouncedNext(from: nat, n: nat, total: int)
    requires from <= n
    ensures Announced(from, n + 1, total) == Announced(from, n, total) + [Progress(n + 1, total)]
  {
  }

  method CaptureGuidedSamples<D(!new)>(first: D, guide: seq<Guidance>, steps: seq<seq<Shot<D>>>, perStep: int,
                                       maxSamples: int, dist: (D, D) -> real, tolerance: real)
      returns (samples: seq<D>, lines: seq<Line>)
    requires |guide| == |steps|
    ensures samples == AfterSteps([first], steps, perStep, maxSamples, dist, tolerance)
    ensures var total := Total(maxSamples, |steps|, perStep);
            lines == [Progress(1, total)] + Emitted([first], guide, steps, perStep, maxSamples, total, dist, tolerance)
  {
    var capture := new Capture<D>(first, Total(maxSamples, |steps|, perStep));
    capture.Run(guide, steps, perStep, maxSamples, dist, tolerance);
    samples, lines := capture.samples, capture.lines;
  }

  // --------------------------------------------------------------- what that means

  ghost predicate Separated<D(!new)>(samples: seq<D>, dist: (D, D) -> real, tolerance: real)
  {
    forall i, j :: 0 <= i < j < |samples| ==> dist(samples[i], samples[j]) >= tolerance
  }

  lemma {:induction false} StepSeparates<D(!new)>(samples: seq<D>, shots: seq<Shot<D>>, wanted: int, maxSamples: int,
                                                  dist: (D, D) -> real, tolerance: real)
    requires Separated(samples, dist, tolerance)
    ensures Separated(AfterStep(samples, shots, wanted, maxSamples, dist, tolerance), dist, tolerance)
    decreases |shots|
  {
    if shots == [] || wanted <= 0 || |samples| >= maxSamples {
    } else if Keeps(samples, shots[0], dist, tolerance) {
      StepSeparates(samples + [shots[0].faces[0]], shots[1..], wanted - 1, maxSamples, dist, tolerance);
    } else {
      StepSeparates(samples, shots[1..], wanted, maxSamples, dist, tolerance);
    }
  }

  lemma {:induction false} StepsSeparate<D(!new)>(samples: seq<D>, steps: seq<seq<Shot<D>>>, perStep: int, maxSamples: int,
                                                  dist: (D, D) -> real, tolerance: real)
    requires Separated(samples, dist, tolerance)
    ensures Separated(AfterSteps(samples, steps, perStep, maxSamples, dist, tolerance), dist, tolerance)
    decreases |steps|
  {
    if steps != [] && |samples| < maxSamples {
      StepSeparates(samples, steps[0], perStep, maxSamples, dist, tolerance);
      StepsSeparate(AfterStep(samples, steps[0], perStep, maxSamples, dist, tolerance), steps[1..], perStep, maxSamples,
                    dist, tolerance);
    }
  }

  /** A step that ends by its deadline has missed nothing: every single face it saw is stored, or
      within the tolerance of a stored one. */
  lemma {:induction false} StepCovers<D(!new)>(samples: seq<D>, shots: seq<Shot<D>>, wanted: int, maxSamples: int,
                                               dist: (D, D) -> real, tolerance: real, k: nat)
    requires k < |shots| && shots[k].Seen? && |shots[k].faces| == 1
    requires var done := AfterStep(samples, shots, wanted, maxSamples, dist, tolerance);
             |done| < maxSamples && |done| - |samples| < wanted
    ensures var done := AfterStep(samples, shots, wanted, maxSamples, dist, tolerance);
            shots[k].faces[0] in done || Duplicate(shots[k].faces[0], done, dist, tolerance)
    decreases |shots|
  {
    var done := AfterStep(samples, shots, wanted, maxSamples, dist, tolerance);
    StepExtends(samples, shots, wanted, maxSamples, dist, tolerance);
    var keep := Keeps(samples, shots[0], dist, tolerance);
    var next := if keep then samples + [shots[0].faces[0]] else samples;
    if k == 0 {
      StepExtends(next, shots[1..], if keep then wanted - 1 else wanted, maxSamples, dist, tolerance);
      assert forall i :: 0 <= i < |next| ==> done[i] == next[i];
      if keep {
        assert done[|samples|] == shots[0].faces[0];
      } else {
        var i :| 0 <= i < |samples| && dist(samples[i], shots[0].faces[0]) < tolerance;
        assert done[i] == samples[i];
      }
    } else {
      StepCovers(next, shots[1..], if keep then wanted - 1 else wanted, maxSamples, dist, tolerance, k - 1);
    }
  }

  /** A step only appends, at most as many as wanted and never past the cap. */
  lemma {:induction false} StepExtends<D(!new)>(samples: seq<D>, shots: seq<Shot<D>>, wanted: int, maxSamples: int,
                                                dist: (D, D) -> real, tolerance: real)
    ensures var done := AfterStep(samples, shots, wanted, maxSamples, dist, tolerance);
            && samples <= done
            && |done| <= |samples| + (if wanted > 0 then wanted else 0)
            && (|done| <= maxSamples || done == samples)
    decreases |shots|
  {
    if shots == [] || wanted <= 0 || |samples| >= maxSamples {
    } else if Keeps(samples, shots[0], dist, tolerance) {
      StepExtends(samples + [shots[0].faces[0]], shots[1..], wanted - 1, maxSamples, dist, tolerance);
    } else {
      StepExtends(samples, shots[1..], wanted, maxSamples, dist, tolerance);
    }
  }

  lemma {:induction false} StepsExtend<D(!new)>(samples: seq<D>, steps: seq<seq<Shot<D>>>, perStep: int, maxSamples: int,
                                                dist: (D, D) -> real, tolerance: real)
    ensures var done := AfterSteps(samples, steps, perStep, maxSamples, dist, tolerance);
            && samples <= done
            && (perStep >= 0 || steps == [] ==> |done| <= |samples| + |steps| * perStep)
            && (|done| <= maxSamples || done == samples)
    decreases |steps|
  {
    if steps != [] && |samples| < maxSamples {
      var next := AfterStep(samples, steps[0], perStep, maxSamples, dist, tolerance);
      StepExtends(samples, steps[0], perStep, maxSamples, dist, tolerance);
      StepsExtend(next, steps[1..], perStep, maxSamples, dist, tolerance);
      assert |steps| * perStep == perStep + |steps[1..]| * perStep;
    } else if perStep >= 0 {
      assert |steps| * perStep >= 0;
    }
  }

  /** The one face of a shot among the shots. */
  predicate SeenAlone<D(==)>(d: D, shots: seq<Shot<D>>)
  {
    exists i :: 0 <= i < |shots| && shots[i] == Seen([d])
  }

  /** What a step adds are single faces it saw. */
  lemma {:induction false} StepStoresWhatItSaw<D(!new)>(samples: seq<D>, shots: seq<Shot<D>>, wanted: int, maxSamples: int,
                                                            dist: (D, D) -> real, tolerance: real, n: nat)
    requires |samples| <= n < |AfterStep(samples, shots, wanted, maxSamples, dist, tolerance)|
    ensures SeenAlone(AfterStep(samples, shots, wanted, maxSamples, dist, tolerance)[n], shots)
    decreases |shots|
  {
    var done := AfterStep(samples, shots, wanted, maxSamples, dist, tolerance);
    var keep := Keeps(samples, shots[0], dist, tolerance);
    var next := if keep then samples + [shots[0].faces[0]] else samples;
    var left := if keep then wanted - 1 else wanted;
    StepExtends(next, shots[1..], left, maxSamples, dist, tolerance);
    if n < |next| {
      assert done[n] == next[n] && shots[0] == Seen([done[n]]);
    } else {
      StepStoresWhatItSaw(next, shots[1..], left, maxSamples, dist, tolerance, n);
      var i :| 0 <= i < |shots[1..]| && shots[1..][i] == Seen([done[n]]);
      assert shots[i + 1] == Seen([done[n]]);
    }
  }

  /** A capture that stays below the cap has walked every step: each single face a step saw is stored or within the
      tolerance of a stored one, or that step gave all the samples it was to give, from a on. */
  lemma {:induction false} StepsCover<D(!new)>(samples: seq<D>, steps: seq<seq<Shot<D>>>, perStep: int, maxSamples: int,
                                                   dist: (D, D) -> real, tolerance: real, j: nat, k: nat) returns (a: nat)
    requires j < |steps| && k < |steps[j]| && steps[j][k].Seen? && |steps[j][k].faces| == 1
    requires |AfterSteps(samples, steps, perStep, maxSamples, dist, tolerance)| < maxSamples
    ensures var done := AfterSteps(samples, steps, perStep, maxSamples, dist, tolerance);
            var face := steps[j][k].faces[0];
            || face in done || Duplicate(face, done, dist, tolerance)
            || (a + perStep <= |done| && forall n :: a <= n < a + perStep ==> SeenAlone(done[n], steps[j]))
    decreases |steps|
  {
    hide AfterStep, SeenAlone, Duplicate;
    var done := AfterSteps(samples, steps, perStep, maxSamples, dist, tolerance);
    StepsExtend(samples, steps, perStep, maxSamples, dist, tolerance);
    var next := AfterStep(samples, steps[0], perStep, maxSamples, dist, tolerance);
    StepsExtend(next, steps[1..], perStep, maxSamples, dist, tolerance);
    a := |samples|;
    if j > 0 {
      a := StepsCover(next, steps[1..], perStep, maxSamples, dist, tolerance, j - 1, k);
    } else if |next| - |samples| < perStep {
      StepCovers(samples, steps[0], perStep, maxSamples, dist, tolerance, k);
      StillCovered(steps[0][k].faces[0], next, done, dist, tolerance);
    } else {
      forall n | a <= n < a + perStep
        ensures SeenAlone(done[n], steps[0])
      {
        StepStoresWhatItSaw(samples, steps[0], perStep, maxSamples, dist, tolerance, n);
        assert done[n] == next[n];
      }
    }
  }

  lemma StillCovered<D(!new)>(face: D, samples: seq<D>, more: seq<D>, dist: (D, D) -> real, tolerance: real)
    requires samples <= more && (face in samples || Duplicate(face, samples, dist, tolerance))
    ensures face in more || Duplicate(face, more, dist, tolerance)
  {
    if face in samples {
      var i :| 0 <= i < |samples| && samples[i] == face;
      assert more[i] == face;
    } else {
      var i :| 0 <= i < |samples| && dist(samples[i], face) < tolerance;
      assert more[i] == samples[i];
    }
  }

  /** The announced total is kept exactly when it makes sense at all, that is when it is at least one. */
  lemma NeverMoreThanAnnounced<D(!new)>(first: D, steps: seq<seq<Shot<D>>>, perStep: int, maxSamples: int,
                                        dist: (D, D) -> real, tolerance: real)
    ensures |AfterSteps([first], steps, perStep, maxSamples, dist, tolerance)| <= Total(maxSamples, |steps|, perStep)
            <==> Total(maxSamples, |steps|, perStep) >= 1
    ensures Separated(AfterSteps([first], steps, perStep, maxSamples, dist, tolerance), dist, tolerance)
    ensures [first] <= AfterSteps([first], steps, perStep, maxSamples, dist, tolerance)
  {
    StepsExtend([first], steps, perStep, maxSamples, dist, tolerance);
    StepsSeparate([first], steps, perStep, maxSamples, dist, tolerance);
    if perStep < 0 && steps != [] {
      assert |steps| * perStep < 0;
    }
  }

  lemma CountsLast(lines: seq<Line>, line: Line)
    ensures Counts(lines + [line]) == Counts(lines) + CountOf(line)
  {
    hide CountOf;
    assert (lines + [line])[..|lines|] == lines;
  }

  lemma {:induction false} CountsAppend(a: seq<Line>, b: seq<Line>)
    ensures Counts(a + b) == Counts(a) + Counts(b)
    decreases b
  {
    hide CountOf, Counts;
    if b == [] {
      assert a + b == a;
      NoCounts();
    } else {
      var n := |b| - 1;
      assert a + b == (a + b[..n]) + [b[n]] && b == b[..n] + [b[n]];
      CountsAppend(a, b[..n]);
      CountsLast(b[..n], b[n]);
      CountsLast(a + b[..n], b[n]);
    }
  }

  lemma OneToNext(n: nat)
    ensures OneTo(n + 1) == OneTo(n) + [n + 1]
  {
  }

  lemma AnnouncedNone(from: nat, total: int)
    ensures Announced(from, from, total) == []
  {
  }

  lemma {:induction false} CountsAnnounced(from: nat, n: nat, total: int)
    requires from <= n
    ensures OneTo(from) + Counts(Announced(from, n, total)) == OneTo(n)
    decreases n
  {
    hide Counts, Announced, OneTo;
    if from < n {
      var before := Announced(from, n - 1, total);
      CountsAnnounced(from, n - 1, total);
      AnnouncedNext(from, n - 1, total);
      CountsLast(before, Progress(n, total));
      OneToNext(n - 1);
      assert OneTo(from) + (Counts(before) + [n]) == OneTo(from) + Counts(before) + [n];
    } else {
      AnnouncedNone(from, total);
      NoCounts();
      assert OneTo(from) + [] == OneTo(from);
    }
  }

  /** The counts in all progress lines are 1, 2, ... up to the number of samples: none is skipped or repeated. */
  lemma {:induction false} CountsAreExact<D(!new)>(samples: seq<D>, guide: seq<Guidance>, steps: seq<seq<Shot<D>>>,
                                                   perStep: int, maxSamples: int, total: int,
                                                   dist: (D, D) -> real, tolerance: real)
    requires |guide| == |steps|
    ensures OneTo(|samples|) + Counts(Emitted(samples, guide, steps, perStep, maxSamples, total, dist, tolerance))
            == OneTo(|AfterSteps(samples, steps, perStep, maxSamples, dist, tolerance)|)
    decreases |steps|
  {
    hide AfterStep, Announced, Counts, OneTo;
    if steps == [] || |samples| >= maxSamples {
      NoCounts();
      assert OneTo(|samples|) + [] == OneTo(|samples|);
    } else {
      var after := AfterStep(samples, steps[0], perStep, maxSamples, dist, tolerance);
      StepExtends(samples, steps[0], perStep, maxSamples, dist, tolerance);
      var prompts := [Guide(guide[0].key), Prompt(guide[0].prompt)];
      var counted := Announced(|samples|, |after|, total);
      var rest := Emitted(after, guide[1..], steps[1..], perStep, maxSamples, total, dist, tolerance);
      CountsAppend(prompts + counted, rest);
      CountsAppend(prompts, counted);
      PromptsDoNotCount(guide[0]);
      CountsAnnounced(|samples|, |after|, total);
      CountsAreExact(after, guide[1..], steps[1..], perStep, maxSamples, total, dist, tolerance);
      assert OneTo(|samples|) + (Counts(counted) + Counts(rest)) == OneTo(|samples|) + Counts(counted) + Counts(rest);
    }
  }

  lemma CountsOne(line: Line)
    ensures Counts([line]) == CountOf(line)
  {
    assert [line][..0] == [];
  }

  lemma NoCounts()
    ensures Counts([]) == []
  {
  }

  lemma PromptsDoNotCount(g: Guidance)
    ensures Counts([Guide(g.key), Prompt(g.prompt)]) == []
  {
    CountsOne(Guide(g.key));
    CountsOne(Prompt(g.prompt));
    CountsAppend([Guide(g.key)], [Prompt(g.prompt)]);
    assert [Guide(g.key)] + [Prompt(g.prompt)] == [Guide(g.key), Prompt(g.prompt)];
  }

  /** The lines that are not counts, in order: what the user is told to do. */
  function Spoken(lines: seq<Line>): seq<Line>
  {
    if lines == [] then [] else (if lines[0].Progress? then [] else [lines[0]]) + Spoken(lines[1..])
  }

  /** Each step's guide line and then its prompt. */
  function Script(guide: seq<Guidance>): seq<Line>
  {
    if guide == [] then [] else [Guide(guide[0].key), Prompt(guide[0].prompt)] + Script(guide[1..])
  }

  lemma {:induction false} SpokenAppend(a: seq<Line>, b: seq<Line>)
    ensures Spoken(a + b) == Spoken(a) + Spoken(b)
  {
    if a == [] {
      assert a + b == b;
    } else {
      assert (a + b)[1..] == a[1..] + b;
      SpokenAppend(a[1..], b);
    }
  }

  lemma {:induction false} CountsAreNotSpoken(lines: seq<Line>)
    requires forall i :: 0 <= i < |lines| ==> lines[i].Progress?
    ensures Spoken(lines) == []
  {
    if lines != [] {
      CountsAreNotSpoken(lines[1..]);
    }
  }

  lemma StepIsSpoken(g: Guidance, from: nat, n: nat, total: int, rest: seq<Line>)
    requires from <= n
    ensures Spoken([Guide(g.key), Prompt(g.prompt)] + Announced(from, n, total) + rest)
            == [Guide(g.key), Prompt(g.prompt)] + Spoken(rest)
  {
    var prompts, counted := [Guide(g.key), Prompt(g.prompt)], Announced(from, n, total);
    CountsAreNotSpoken(counted);
    SpokenAppend(prompts + counted, rest);
    SpokenAppend(prompts, counted);
    assert prompts[1..] == [Prompt(g.prompt)] && prompts[1..][1..] == [];
    assert Spoken([Prompt(g.prompt)]) == [Prompt(g.prompt)] + Spoken([]);
  }

  /** The user is led through the steps in their order, guide line before prompt, through all of them unless the cap
      is reached on the way. */
  lemma {:induction false} StepsAreSpoken<D(!new)>(samples: seq<D>, guide: seq<Guidance>, steps: seq<seq<Shot<D>>>,
                                                   perStep: int, maxSamples: int, total: int,
                                                   dist: (D, D) -> real, tolerance: real) returns (begun: nat)
    requires |guide| == |steps|
    ensures begun <= |guide|
    ensures begun < |guide| ==> |AfterSteps(samples, steps, perStep, maxSamples, dist, tolerance)| >= maxSamples
    ensures Spoken(Emitted(samples, guide, steps, perStep, maxSamples, total, dist, tolerance)) == Script(guide[..begun])
    decreases |steps|
  {
    hide AfterStep, Announced;
    if steps == [] || |samples| >= maxSamples {
      begun := 0;
    } else {
      var after := AfterStep(samples, steps[0], perStep, maxSamples, dist, tolerance);
      StepExtends(samples, steps[0], perStep, maxSamples, dist, tolerance);
      var more := StepsAreSpoken(after, guide[1..], steps[1..], perStep, maxSamples, total, dist, tolerance);
      StepIsSpoken(guide[0], |samples|, |after|, total,
                   Emitted(after, guide[1..], steps[1..], perStep, maxSamples, total, dist, tolerance));
      begun := more + 1;
      assert guide[..begun][1..] == guide[1..][..more] && guide[..begun][0] == guide[0];
    }
  }

  // --------------------------------------------------------------- flatten_models

  /** The descriptors of the models before the i-th. */
  function Offset<D>(models: seq<seq<D>>, i: nat): nat
    requires i <= |models|
  {
    if i == 0 then 0 else Offset(models, i - 1) + |models[i - 1]|
  }

  /** The flat list holds each model's descriptors at its offset, and each entry's owner is that model. */
  ghost predicate IsFlat<D>(models: seq<seq<D>>, encodings: seq<D>, owners: seq<int>)
  {
    && |encodings| == |owners| == Offset(models, |models|)
    && (forall i, j :: 0 <= i < |models| && 0 <= j < |models[i]| ==> PlacedAt(models, encodings, owners, i, j))
  }

  ghost predicate PlacedAt<D>(models: seq<seq<D>>, encodings: seq<D>, owners: seq<int>, i: nat, j: nat)
    requires i < |models| && j < |models[i]|
  {
    var k := Offset(models, i) + j;
    k < |encodings| && k < |owners| && encodings[k] == models[i][j] && owners[k] == i
  }

  method FlattenModels<D>(models: seq<seq<D>>) returns (encodings: seq<D>, owners: seq<int>)
    ensures IsFlat(models, encodings, owners)
  {
    encodings, owners := [], [];
    for index := 0 to |models|
      invariant |encodings| == |owners| == Offset(models, index)
      invariant forall i, j :: 0 <= i < index && 0 <= j < |models[i]| ==> PlacedAt(models, encodings, owners, i, j)
    {
      ghost var before, ownersBefore := encodings, owners;
      var data := models[index];
      encodings := encodings + data;
      owners := owners + seq(|data|, _ => index);
      forall i, j | 0 <= i <= index && 0 <= j < |models[i]|
        ensures PlacedAt(models, encodings, owners, i, j)
      {
        if i < index {
          assert PlacedAt(models, before, ownersBefore, i, j);
        }
      }
    }
  }

  /** Entries keep their order: by model, and within a model by position. */
  lemma {:induction false} FlatIsOrdered<D>(models: seq<seq<D>>, i: nat, j: nat, i': nat, j': nat)
    requires i < |models| && j < |models[i]| && i' < |models| && j' < |models[i']|
    ensures Offset(models, i) + j < Offset(models, i') + j' <==> i < i' || (i == i' && j < j')
    ensures Offset(models, i) + j == Offset(models, i') + j' <==> i == i' && j == j'
  {
    if i < i' {
      OffsetsGrow(models, i + 1, i');
    } else if i' < i {
      OffsetsGrow(models, i' + 1, i);
    }
  }

  lemma {:induction false} OffsetsGrow<D>(models: seq<seq<D>>, i: nat, i': nat)
    requires i <= i' <= |models|
    ensures Offset(models, i) <= Offset(models, i')
    decreases i'
  {
    if i < i' {
      OffsetsGrow(models, i, i' - 1);
    }
  }

  /** Every flat position is some model's descriptor. */
  lemma {:induction false} PositionOf<D>(models: seq<seq<D>>, n: nat, k: nat) returns (i: nat, j: nat)
    requires n <= |models| && k < Offset(models, n)
    ensures i < n && j < |models[i]| && k == Offset(models, i) + j
  {
    if k >= Offset(models, n - 1) {
      i, j := n - 1, k - Offset(models, n - 1);
    } else {
      i, j := PositionOf(models, n - 1, k);
    }
  }

  /** The owner of a nearest entry is a model that holds a nearest descriptor of all. */
  lemma NearestOwner<D(!new)>(models: seq<seq<D>>, encodings: seq<D>, owners: seq<int>, distance: D -> real, k: nat)
      returns (j: nat)
    requires IsFlat(models, encodings, owners) && k < |encodings|
    requires forall r :: 0 <= r < |encodings| ==> distance(encodings[k]) <= distance(encodings[r])
    ensures 0 <= owners[k] < |models| && j < |models[owners[k]]| && models[owners[k]][j] == encodings[k]
    ensures forall i', j' :: 0 <= i' < |models| && 0 <= j' < |models[i']| ==>
              distance(models[owners[k]][j]) <= distance(models[i'][j'])
  {
    var i;
    i, j := PositionOf(models, |models|, k);
    assert PlacedAt(models, encodings, owners, i, j);
    forall i', j' | 0 <= i' < |models| && 0 <= j' < |models[i']|
      ensures distance(encodings[k]) <= distance(models[i'][j'])
    {
      assert PlacedAt(models, encodings, owners, i', j');
    }
  }
}
