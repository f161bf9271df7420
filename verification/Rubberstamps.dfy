/** ubuntu-hello/src/rubberstamps/__init__.py: the liveness stamps behind a match, and
    the exit code they leave with. */
module Rubberstamps {
  import opened Options
  import opened Text

  /** What run() does: raise an Exception, return a verdict that `is False` or not, or leave the
      process itself with sys.exit, which `except Exception` does not catch. */
  datatype Run = Crashes | Returns(isFalse: bool) | Exits(code: int)

  /** What happens to a parsed rule before its stamp runs, and then. SetupEnds: an uncaught
      exception (code 1) or sys.exit while loading, constructing, or reading the options. */
  datatype Stamp = NotInstalled | NoClass | SetupEnds(code: int) | DeclarationCrashes | Runs(run: Run)

  /** A line of stamp_rules as execute sees it; word is the rule's third field. */
  datatype Rule = TooShort | Unparsable | Parsed(word: string, stamp: Stamp)

  /** Whether a crash of this rule's stamp denies: any spelling of faildeadly lets it pass. */
  predicate RuleFailsafe(word: string)
  {
    Lower(word) != "faildeadly"
  }

  /** options["failsafe"], which the stamp itself looks at: only the exact spelling counts. */
  predicate StampFailsafe(word: string)
  {
    word != "faildeadly"
  }

  /** The stamp runs and denies. */
  predicate Denies(rule: Rule)
  {
    && rule.Parsed? && rule.stamp.Runs?
    && match rule.stamp.run
       case Crashes => RuleFailsafe(rule.word)
       case Returns(isFalse) => isFalse
       case Exits(_) => false
  }

  /** The stamp, or its setup, ends the process without a verdict. */
  predicate Leaves(rule: Rule)
  {
    rule.Parsed? && (rule.stamp.SetupEnds? || (rule.stamp.Runs? && rule.stamp.run.Exits?))
  }

  function LeavingCode(rule: Rule): int
    requires Leaves(rule)
  {
    if rule.stamp.SetupEnds? then rule.stamp.code else rule.stamp.run.code
  }

  /** _run_stamp: the exit code it leaves with, if it does. */
  method RunStamp(run: Run, ruleFailsafe: bool) returns (code: Option<int>)
    ensures code == if run.Exits? then Some(run.code)
                    else if run == Returns(true) || (run == Crashes && ruleFailsafe) then Some(15) else None
  {
    match run {
      case Crashes =>
        if ruleFailsafe {
          return Some(15);
        }
        return None;
      case Returns(isFalse) =>
        if isFalse {
          return Some(15);
        }
      case Exits(c) => return Some(c);
    }
    return None;
  }

  /** The first rule that ends the process, |rules| when none does. */
  function FirstStop(rules: seq<Rule>): (n: nat)
    ensures n <= |rules|
    ensures n < |rules| ==> Denies(rules[n]) || Leaves(rules[n])
    ensures forall i :: 0 <= i < n ==> !Denies(rules[i]) && !Leaves(rules[i])
  {
    if rules == [] || Denies(rules[0]) || Leaves(rules[0]) then 0 else 1 + FirstStop(rules[1..])
  }

  /** execute: 15 for a denial, the code a stamp or its setup left with, 0 when all rules were worked through. */
  function ExitCode(rules: seq<Rule>): int
  {
    var n := FirstStop(rules);
    if n == |rules| then 0 else if Denies(rules[n]) then 15 else LeavingCode(rules[n])
  }

  method Execute(rules: seq<Rule>) returns (code: int)
    ensures code == ExitCode(rules)
  {
    for i := 0 to |rules|
      invariant FirstStop(rules) == i + FirstStop(rules[i..])
    {
      var rest := rules[i..];
      assert rest[0] == rules[i] && rest[1..] == rules[i + 1..];
      match rules[i] {
        case TooShort => continue;
        case Unparsable => continue;
        case Parsed(word, stamp) =>
          match stamp {
            case NotInstalled => continue;
            case NoClass => continue;
            case SetupEnds(c) => return c;
            case DeclarationCrashes => continue;
            case Runs(run) =>
              var stop := RunStamp(run, RuleFailsafe(word));
              if stop.Some? {
                return stop.value;
              }
          }
      }
    }
    return 0;
  }

  // ------------------------------------------------------- what letting the user through means

  /** execute came to this rule. */
  predicate Reached(rules: seq<Rule>, i: nat)
    requires i < |rules|
  {
    i <= FirstStop(rules)
  }

  /** The rule ends the process in a refusal. */
  predicate Refuses(rule: Rule)
  {
    Denies(rule) || (Leaves(rule) && LeavingCode(rule) != 0)
  }

  /** Authentication goes through exactly when no rule that execute came to refused. */
  lemma AcceptedExactly(rules: seq<Rule>)
    ensures ExitCode(rules) == 0 <==> forall i :: 0 <= i < |rules| && Reached(rules, i) ==> !Refuses(rules[i])
  {
    var n := FirstStop(rules);
    if n < |rules| {
      assert Reached(rules, n);
    }
  }

  /** An accepting execute came to every rule, unless a stamp before it left with 0 on its own. */
  lemma AcceptedReaches(rules: seq<Rule>, i: nat)
    requires i < |rules| && forall k :: 0 <= k < |rules| && Reached(rules, k) ==> !Refuses(rules[k])
    requires forall j :: 0 <= j < i && Leaves(rules[j]) ==> LeavingCode(rules[j]) != 0
    ensures Reached(rules, i)
  {
    var n := FirstStop(rules);
    assert n < |rules| ==> Reached(rules, n) && (Denies(rules[n]) || Leaves(rules[n]));
  }

  /** A rule that is to deny when its check does not pass: every rule but a faildeadly one. A line that
      does not parse has no third field to say otherwise. */
  predicate Failsafe(rule: Rule)
  {
    rule.Unparsable? || (rule.Parsed? && RuleFailsafe(rule.word))
  }

  /** A rule execute steps over without running its stamp. */
  predicate SteppedOver(rule: Rule)
  {
    rule.Unparsable? || (rule.Parsed? && (rule.stamp.NotInstalled? || rule.stamp.NoClass? || rule.stamp.DeclarationCrashes?))
  }

  predicate RanAndPassed(rules: seq<Rule>, i: nat)
    requires i < |rules|
  {
    Reached(rules, i) && rules[i].Parsed? && rules[i].stamp.Runs? && !Refuses(rules[i])
  }

  /** When authentication goes through, every failsafe stamp ran and passed exactly if no failsafe rule is stepped
      over, and none comes after a stamp, or is itself a setup, that left with 0 on its own. */
  lemma EveryFailsafeStampRan(rules: seq<Rule>)
    requires ExitCode(rules) == 0
    ensures (forall i :: 0 <= i < |rules| && Failsafe(rules[i]) ==> RanAndPassed(rules, i))
            <==> (forall i :: 0 <= i < |rules| && Failsafe(rules[i]) ==>
                    && !SteppedOver(rules[i])
                    && !(rules[i].Parsed? && rules[i].stamp.SetupEnds?)
                    && !(exists j :: 0 <= j < i && Leaves(rules[j])))
  {
    var n := FirstStop(rules);
    AcceptedExactly(rules);
    forall i | 0 <= i < |rules|
      ensures !(exists j :: 0 <= j < i && Leaves(rules[j])) <==> Reached(rules, i)
    {
      assert n < i ==> Leaves(rules[n]);
    }
  }

  /** With stamps that never leave with 0 themselves, as the installed ones, stepping over is all there is to fear. */
  lemma OnlySteppingOverAccepts(rules: seq<Rule>)
    requires ExitCode(rules) == 0 && forall i :: 0 <= i < |rules| && Leaves(rules[i]) ==> LeavingCode(rules[i]) != 0
    ensures (forall i :: 0 <= i < |rules| && Failsafe(rules[i]) ==> RanAndPassed(rules, i))
            <==> forall i :: 0 <= i < |rules| && Failsafe(rules[i]) ==> !SteppedOver(rules[i])
  {
    var n := FirstStop(rules);
    AcceptedExactly(rules);
    assert n == |rules|;
    EveryFailsafeStampRan(rules);
  }

  /** A failsafe rule for a stamp that is not installed lets the user through. */
  lemma MissingStampAccepts()
    ensures var rules := [Parsed("failsafe", NotInstalled)];
            ExitCode(rules) == 0 && Failsafe(rules[0]) && !RanAndPassed(rules, 0)
  {
    var rules := [Parsed("failsafe", NotInstalled)];
    assert FirstStop(rules[1..]) == 0;
    assert |Lower("failsafe")| == 8;
  }
}
