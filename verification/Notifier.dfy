/** AuthNotifier of ubuntu-hello/src/notify.py: one card, updated in place by any
    number of threads. _lock guards the state, _io_lock serialises the sends. */
module Notifier {
  import opened Options

  /** What _lock guards. Watchdog processes are named by the thread that spawned them;
      live are those not killed yet. */
  datatype Shared = Shared(finalized: bool, id: nat, disabled: bool, watchdog: Option<nat>, live: set<nat>)

  /** A send's outcome: it failed, or the server answered with an id (0: none found). */
  datatype Reply = Failed | Answered(id: nat)

  // ---------------------------------------------- the four critical sections

  function CancelWatchdog(sh: Shared): Shared
  {
    sh.(watchdog := None, live := if sh.watchdog.Some? then sh.live - {sh.watchdog.value} else sh.live)
  }

  /** The first section of _notify; false when a late in-progress card is dropped. */
  function Announce(sh: Shared, final: bool): (Shared, bool)
  {
    if final then (CancelWatchdog(sh.(finalized := true)), true) else (sh, !sh.finalized)
  }

  /** The second section, under _io_lock: the id to replace, or None to drop the card. */
  function Claim(sh: Shared, final: bool): Option<nat>
  {
    if (!final && sh.finalized) || sh.disabled then None else Some(sh.id)
  }

  /** The section after a send. */
  function Record(sh: Shared, reply: Reply): Shared
  {
    match reply
    case Failed => sh.(disabled := true)
    case Answered(id) => if id != 0 && id != sh.id then sh.(id := id) else sh
  }

  /** start()'s own section after its card went out; spawns: whether Popen and the delay allow a process. */
  function Arm(sh: Shared, thread: nat, spawns: bool): Shared
  {
    if sh.finalized then CancelWatchdog(sh)
    else if sh.disabled || sh.id == 0 || !spawns then sh.(watchdog := None)
    else sh.(watchdog := Some(thread), live := sh.live + {thread})
  }

  class AuthNotifier {
    var finalized: bool
    var notificationId: nat
    var disabled: bool
    var watchdog: Option<nat>
    ghost var live: set<nat>

    ghost function Contents(): Shared
      reads this
    {
      Shared(finalized, notificationId, disabled, watchdog, live)
    }

    constructor (savedId: nat, enabled: bool)
      ensures Contents() == Shared(false, savedId, !enabled, None, {})
    {
      finalized, notificationId, disabled, watchdog, live := false, savedId, !enabled, None, {};
    }

    method Cancel()
      modifies this
      ensures Contents() == CancelWatchdog(old(Contents()))
    {
      var dog := watchdog;
      watchdog := None;
      if dog == None {
        return;
      }
      live := live - {dog.value};
    }

    method Announcing(final: bool) returns (proceed: bool)
      modifies this
      ensures (Contents(), proceed) == Announce(old(Contents()), final)
    {
      if final {
        finalized := true;
        Cancel();
      } else if finalized {
        return false;
      }
      return true;
    }

    method Claiming(final: bool) returns (replacing: Option<nat>)
      ensures replacing == Claim(Contents(), final)
    {
      if !final && finalized {
        return None;
      }
      if disabled {
        return None;
      }
      return Some(notificationId);
    }

    method Recording(reply: Reply)
      modifies this
      ensures Contents() == Record(old(Contents()), reply)
    {
      match reply {
        case Failed => disabled := true;
        case Answered(id) =>
          if id != 0 && id != notificationId {
            notificationId := id;
          }
      }
    }

    method Arming(thread: nat, spawns: bool)
      modifies this
      ensures Contents() == Arm(old(Contents()), thread, spawns)
    {
      if finalized {
        Cancel();
      } else if disabled || notificationId == 0 || !spawns {
        watchdog := None;
      } else {
        watchdog := Some(thread);
        live := live + {thread};
      }
    }
  }

  // ---------------------------------------------------- threads and their steps

  /** A result card, start()'s in-progress card, or another in-progress card. */
  datatype Kind = Result | Start | Progress

  datatype Pc =
    | Begin
    | WantLock1 | InLock1
    | WantIo
    | WantLock2 | InLock2
    | Sending(replacing: nat)
    | WantLock3(reply: Reply) | InLock3(reply: Reply)
    | ReleaseIo(sent: bool)
    | WantLock4 | InLock4
    | Done

  /** checked: whether a result had been announced when the thread passed its second check, once it has;
      a record of the run that no step looks at. */
  datatype Thread = Thread(kind: Kind, pc: Pc, checked: Option<bool>)

  datatype Card = Card(sender: nat, final: bool, replacing: nat, reply: Reply)

  datatype State = State(
    shared: Shared, lock: Option<nat>, io: Option<nat>, threads: map<nat, Thread>, sent: seq<Card>)

  function Initial(savedId: nat, enabled: bool): State
  {
    State(Shared(false, savedId, !enabled, None, {}), None, None, map[], [])
  }

  datatype Action =
    | Call(thread: nat, kind: Kind)         // a new thread enters _notify
    | Step(thread: nat)
    | SendReturns(thread: nat, reply: Reply)
    | ArmWatchdog(thread: nat, spawns: bool)

  function At(s: State, t: nat, pc: Pc): State
    requires t in s.threads
  {
    s.(threads := s.threads[t := s.threads[t].(pc := pc)])
  }

  function Checked(s: State, t: nat): State
    requires t in s.threads
  {
    s.(threads := s.threads[t := s.threads[t].(checked := Some(s.shared.finalized))])
  }

  function Acquire(s: State, t: nat, pc: Pc): Option<State>
    requires t in s.threads
  {
    if s.lock == None then Some(At(s.(lock := Some(t)), t, pc)) else None
  }

  function Next(s: State, a: Action): Option<State>
  {
    match a
    case Call(t, kind) =>
      if t in s.threads then None else Some(s.(threads := s.threads[t := Thread(kind, Begin, None)]))
    case SendReturns(t, reply) =>
      if t in s.threads && s.threads[t].pc.Sending? then
        var th := s.threads[t];
        Some(At(s.(sent := s.sent + [Card(t, th.kind == Result, th.pc.replacing, reply)]), t, WantLock3(reply)))
      else None
    case ArmWatchdog(t, spawns) =>
      if t in s.threads && s.threads[t].pc.InLock4? then
        Some(At(s.(shared := Arm(s.shared, t, spawns), lock := None), t, Done))
      else None
    case Step(t) => if t in s.threads then StepOf(s, t) else None
  }

  function StepOf(s: State, t: nat): Option<State>
    requires t in s.threads
  {
    var final := s.threads[t].kind == Result;
    match s.threads[t].pc
    case Begin => Some(At(s, t, if s.shared.disabled then Done else WantLock1))
    case WantLock1 => Acquire(s, t, InLock1)
    case InLock1 =>
      var (sh, proceed) := Announce(s.shared, final);
      Some(At(s.(shared := sh, lock := None), t, if proceed then WantIo else Done))
    case WantIo => if s.io == None then Some(At(s.(io := Some(t)), t, WantLock2)) else None
    case WantLock2 => Acquire(s, t, InLock2)
    case InLock2 =>
      Some(At(Checked(s.(lock := None), t), t,
              match Claim(s.shared, final) case None => ReleaseIo(false) case Some(id) => Sending(id)))
    case WantLock3(reply) => Acquire(s, t, InLock3(reply))
    case InLock3(reply) =>
      Some(At(s.(shared := Record(s.shared, reply), lock := None), t, ReleaseIo(reply.Answered?)))
    case ReleaseIo(ok) =>
      Some(At(s.(io := None), t, if ok && s.threads[t].kind == Start then WantLock4 else Done))
    case WantLock4 => Acquire(s, t, InLock4)
    case _ => None
  }

  function Run(s: State, actions: seq<Action>): Option<State>
    decreases actions
  {
    if actions == [] then Some(s)
    else match Next(s, actions[0]) case None => None case Some(n) => Run(n, actions[1..])
  }

  // ------------------------------------------------------------- the invariant

  predicate HoldsLock(pc: Pc)
  {
    pc.InLock1? || pc.InLock2? || pc.InLock3? || pc.InLock4?
  }

  predicate HoldsIo(pc: Pc)
  {
    pc.WantLock2? || pc.InLock2? || pc.Sending? || pc.WantLock3? || pc.InLock3? || pc.ReleaseIo?
  }

  predicate HoldsItsLocks(s: State, t: nat)
    requires t in s.threads
  {
    && (HoldsLock(s.threads[t].pc) <==> s.lock == Some(t))
    && (HoldsIo(s.threads[t].pc) <==> s.io == Some(t))
  }

  predicate LocksAreHeld(s: State)
  {
    && (forall t :: t in s.threads ==> HoldsItsLocks(s, t))
    && (s.lock.Some? ==> s.lock.value in s.threads)
    && (s.io.Some? ==> s.io.value in s.threads)
  }

  predicate HasResult(sent: seq<Card>)
  {
    exists i :: 0 <= i < |sent| && sent[i].final
  }

  /** All in-progress cards, then all result cards. */
  predicate Ordered(sent: seq<Card>)
  {
    forall i, j :: 0 <= i < j < |sent| && sent[i].final ==> sent[j].final
  }

  /** Where a result thread is past announcing itself, or a result went out, the attempt is finalized;
      a thread about to send an in-progress card has seen no result sent. */
  predicate RespectsResults(s: State, t: nat)
    requires t in s.threads
  {
    var th := s.threads[t];
    && (th.kind == Result && (HoldsIo(th.pc) || th.pc.WantIo?) ==> s.shared.finalized)
    && (th.kind != Result && th.pc.Sending? ==> !HasResult(s.sent))
  }

  predicate ResultsAreFinal(s: State)
  {
    && Ordered(s.sent)
    && (HasResult(s.sent) ==> s.shared.finalized)
    && (forall t :: t in s.threads ==> RespectsResults(s, t))
  }

  /** The last id the server returned, to begin with the saved one. */
  function LastId(saved: nat, sent: seq<Card>): nat
  {
    if sent == [] then saved
    else
      var last := sent[|sent| - 1].reply;
      if last.Answered? && last.id != 0 then last.id else LastId(saved, sent[..|sent| - 1])
  }

  predicate ReplacesLast(saved: nat, sent: seq<Card>)
  {
    forall i :: 0 <= i < |sent| ==> sent[i].replacing == LastId(saved, sent[..i])
  }

  predicate OnlyLastFails(sent: seq<Card>)
  {
    forall i :: 0 <= i < |sent| - 1 ==> sent[i].reply.Answered?
  }

  predicate Pending(pc: Pc)
  {
    pc.WantLock3? || pc.InLock3?
  }

  /** The id and the failure state lag behind the sends only while the sender still holds _io_lock. */
  predicate KnowsTheId(saved: nat, s: State, t: nat)
    requires t in s.threads
  {
    var pc := s.threads[t].pc;
    && (pc.Sending? ==> pc.replacing == s.shared.id && !s.shared.disabled)
    && (Pending(pc) ==>
          s.sent != [] && s.sent[|s.sent| - 1].reply == pc.reply
          && s.shared.id == LastId(saved, s.sent[..|s.sent| - 1]))
  }

  /** The id and the failure state as seen while nobody is between a send and recording it. */
  predicate Settled(saved: nat, s: State)
  {
    (s.io == None || !Pending(IoPc(s))) ==>
      s.shared.id == LastId(saved, s.sent)
      && (s.sent != [] && s.sent[|s.sent| - 1].reply.Failed? ==> s.shared.disabled)
  }

  predicate IdIsCurrent(saved: nat, s: State)
  {
    && ReplacesLast(saved, s.sent)
    && OnlyLastFails(s.sent)
    && (forall t :: t in s.threads ==> KnowsTheId(saved, s, t))
    && Settled(saved, s)
  }

  function IoPc(s: State): Pc
  {
    if s.io.Some? && s.io.value in s.threads then s.threads[s.io.value].pc else Begin
  }

  predicate OneStart(s: State)
  {
    forall t, u :: t in s.threads && u in s.threads && s.threads[t].kind == Start && s.threads[u].kind == Start ==> t == u
  }

  predicate IsThrough(s: State, w: nat)
  {
    w in s.threads && s.threads[w].kind == Start && s.threads[w].pc == Done
  }

  predicate OnlyStartArms(s: State, t: nat)
    requires t in s.threads
  {
    s.threads[t].pc.WantLock4? || s.threads[t].pc.InLock4? ==> s.threads[t].kind == Start
  }

  /** A watchdog alive is the one on record, spawned by a start() that is through; none survives finalization. */
  predicate WatchdogsAreKnown(s: State)
  {
    && (forall w :: w in s.shared.live ==> s.shared.watchdog == Some(w) && IsThrough(s, w))
    && (s.shared.finalized ==> s.shared.live == {})
    && (forall t :: t in s.threads ==> OnlyStartArms(s, t))
  }

  predicate Inv(saved: nat, s: State)
  {
    && LocksAreHeld(s)
    && ResultsAreFinal(s)
    && IdIsCurrent(saved, s)
    && (OneStart(s) ==> WatchdogsAreKnown(s))
  }

  function Who(a: Action): nat
  {
    a.thread
  }

  /** An action moves one thread and leaves the others where they are. */
  lemma OthersStay(s: State, a: Action, t: nat)
    requires Next(s, a).Some?
    ensures var n := Next(s, a).value;
            && n.threads.Keys == s.threads.Keys + {Who(a)}
            && (t in s.threads && t != Who(a) ==> n.threads[t] == s.threads[t])
            && (Who(a) in s.threads ==> n.threads[Who(a)].kind == s.threads[Who(a)].kind)
  {
    hide Announce, Claim, Record, Arm;
  }

  /** A lock is taken when it is free and given back by the thread that holds it. */
  lemma LocksMove(s: State, a: Action)
    requires Next(s, a).Some? && (Who(a) in s.threads ==> HoldsItsLocks(s, Who(a)))
    requires (s.lock.Some? ==> s.lock.value in s.threads) && (s.io.Some? ==> s.io.value in s.threads)
    ensures var n := Next(s, a).value;
            && HoldsItsLocks(n, Who(a))
            && (n.lock == s.lock || (s.lock == None && n.lock == Some(Who(a))) || (s.lock == Some(Who(a)) && n.lock == None))
            && (n.io == s.io || (s.io == None && n.io == Some(Who(a))) || (s.io == Some(Who(a)) && n.io == None))
  {
    hide Announce, Claim, Record, Arm;
  }

  lemma LocksKeptFor(s: State, a: Action, t: nat)
    requires Next(s, a).Some? && t in Next(s, a).value.threads
    requires Who(a) in s.threads ==> HoldsItsLocks(s, Who(a))
    requires t in s.threads ==> HoldsItsLocks(s, t)
    requires s.lock.Some? ==> s.lock.value in s.threads
    requires s.io.Some? ==> s.io.value in s.threads
    ensures HoldsItsLocks(Next(s, a).value, t)
    ensures Next(s, a).value.lock in {s.lock, None, Some(Who(a))} && Next(s, a).value.io in {s.io, None, Some(Who(a))}
  {
    hide Next;
    LocksMove(s, a);
    OthersStay(s, a, t);
  }

  lemma LocksKept(s: State, a: Action)
    requires LocksAreHeld(s) && Next(s, a).Some?
    ensures LocksAreHeld(Next(s, a).value)
  {
    hide Next, HoldsItsLocks;
    var n := Next(s, a).value;
    OthersStay(s, a, Who(a));
    forall t | t in n.threads
      ensures HoldsItsLocks(n, t)
    {
      LocksKeptFor(s, a, t);
    }
    LocksKeptFor(s, a, Who(a));
  }

  lemma OrderedAppend(sent: seq<Card>, card: Card)
    requires Ordered(sent) && (!card.final ==> !HasResult(sent))
    ensures Ordered(sent + [card])
    ensures HasResult(sent + [card]) <==> card.final || HasResult(sent)
  {
    var more := sent + [card];
    assert card.final ==> more[|sent|].final;
    assert forall i :: 0 <= i < |sent| ==> more[i] == sent[i];
  }

  /** Everything but a send leaves the sent cards alone; finalized stays. */
  lemma SentGrows(s: State, a: Action)
    requires Next(s, a).Some?
    ensures Next(s, a).value.sent
            == (if a.SendReturns?
                then s.sent + [Card(a.thread, s.threads[a.thread].kind == Result, s.threads[a.thread].pc.replacing, a.reply)]
                else s.sent)
    ensures s.shared.finalized ==> Next(s, a).value.shared.finalized
  {
  }

  lemma FinalKeptForMover(s: State, a: Action)
    requires Next(s, a).Some? && (Who(a) in s.threads ==> RespectsResults(s, Who(a)))
    requires HasResult(s.sent) ==> s.shared.finalized
    ensures RespectsResults(Next(s, a).value, Who(a))
  {
    hide HasResult, Record, Arm;
    SentGrows(s, a);
  }

  lemma FinalKeptFor(s: State, a: Action, t: nat)
    requires Next(s, a).Some? && t in Next(s, a).value.threads
    requires Who(a) in s.threads ==> HoldsItsLocks(s, Who(a)) && RespectsResults(s, Who(a))
    requires t in s.threads ==> HoldsItsLocks(s, t) && RespectsResults(s, t)
    requires HasResult(s.sent) ==> s.shared.finalized
    ensures RespectsResults(Next(s, a).value, t)
  {
    hide HasResult, Next;
    if t == Who(a) {
      FinalKeptForMover(s, a);
    } else {
      OthersStay(s, a, t);
      SentGrows(s, a);
      if a.SendReturns? {
        SendingReturns(s, a);
      }
    }
  }

  lemma SendingReturns(s: State, a: Action)
    requires Next(s, a).Some? && a.SendReturns?
    ensures Who(a) in s.threads && s.threads[Who(a)].pc.Sending?
  {
  }

  lemma FinalKept(s: State, a: Action)
    requires LocksAreHeld(s) && ResultsAreFinal(s) && Next(s, a).Some?
    ensures ResultsAreFinal(Next(s, a).value)
  {
    hide Ordered, HasResult, StepOf, HoldsItsLocks;
    var n := Next(s, a).value;
    SentGrows(s, a);
    forall t | t in n.threads
      ensures RespectsResults(n, t)
    {
      FinalKeptFor(s, a, t);
    }
    if a.SendReturns? {
      HoldsWhileSending(s, a.thread);
      OrderedAppend(s.sent, n.sent[|s.sent|]);
    }
  }

  lemma HoldsWhileSending(s: State, t: nat)
    requires t in s.threads && s.threads[t].pc.Sending? && HoldsItsLocks(s, t)
    ensures s.io == Some(t) && HoldsIo(s.threads[t].pc)
  {
  }

  lemma LastIdAppend(saved: nat, sent: seq<Card>, card: Card)
    ensures LastId(saved, sent + [card])
            == if card.reply.Answered? && card.reply.id != 0 then card.reply.id else LastId(saved, sent)
    ensures ReplacesLast(saved, sent) && card.replacing == LastId(saved, sent) ==> ReplacesLast(saved, sent + [card])
    ensures (forall i :: 0 <= i < |sent| ==> sent[i].reply.Answered?) ==> OnlyLastFails(sent + [card])
  {
    var more := sent + [card];
    assert more[..|sent|] == sent;
    assert forall i :: 0 <= i < |sent| ==> more[..i] == sent[..i];
  }

  lemma AllAnswered(sent: seq<Card>)
    requires OnlyLastFails(sent) && (sent != [] ==> sent[|sent| - 1].reply.Answered?)
    ensures forall i :: 0 <= i < |sent| ==> sent[i].reply.Answered?
  {
  }

  /** After a send its thread knows the reply, and no other thread is between the send lock and its record. */
  lemma KnowsAfterSend(saved: nat, s: State, t: nat, reply: Reply, u: nat)
    requires t in s.threads && u in s.threads && HoldsItsLocks(s, t) && HoldsItsLocks(s, u)
    requires KnowsTheId(saved, s, t) && KnowsTheId(saved, s, u) && Settled(saved, s)
    requires Next(s, SendReturns(t, reply)).Some?
    ensures KnowsTheId(saved, Next(s, SendReturns(t, reply)).value, u)
  {
    hide LastId;
    var n := Next(s, SendReturns(t, reply)).value;
    assert n.sent[..|n.sent| - 1] == s.sent;
  }

  lemma SettledAfterSend(saved: nat, s: State, t: nat, reply: Reply)
    requires t in s.threads && HoldsItsLocks(s, t) && Next(s, SendReturns(t, reply)).Some?
    ensures Settled(saved, Next(s, SendReturns(t, reply)).value)
  {
    hide LastId;
  }

  lemma SendIsCurrent(saved: nat, s: State, t: nat, reply: Reply)
    requires t in s.threads && HoldsItsLocks(s, t) && KnowsTheId(saved, s, t) && Settled(saved, s)
    requires Next(s, SendReturns(t, reply)).Some?
    ensures s.threads[t].pc.replacing == LastId(saved, s.sent)
    ensures s.sent != [] ==> s.sent[|s.sent| - 1].reply.Answered?
  {
    hide LastId;
  }

  lemma IdKeptBySend(saved: nat, s: State, t: nat, reply: Reply)
    requires LocksAreHeld(s) && IdIsCurrent(saved, s) && Next(s, SendReturns(t, reply)).Some?
    ensures IdIsCurrent(saved, Next(s, SendReturns(t, reply)).value)
  {
    hide ReplacesLast, OnlyLastFails, LastId, KnowsTheId, HoldsItsLocks, Settled;
    var n := Next(s, SendReturns(t, reply)).value;
    var card := Card(t, s.threads[t].kind == Result, s.threads[t].pc.replacing, reply);
    SendIsCurrent(saved, s, t, reply);
    AllAnswered(s.sent);
    LastIdAppend(saved, s.sent, card);
    SettledAfterSend(saved, s, t, reply);
    forall u | u in n.threads
      ensures KnowsTheId(saved, n, u)
    {
      KnowsAfterSend(saved, s, t, reply, u);
    }
  }

  lemma LastIdStep(saved: nat, sent: seq<Card>)
    requires sent != []
    ensures LastId(saved, sent)
            == (var last := sent[|sent| - 1].reply;
                if last.Answered? && last.id != 0 then last.id else LastId(saved, sent[..|sent| - 1]))
  {
  }

  /** One other step, for the thread that takes it. */
  lemma IdKeptForMover(saved: nat, s: State, a: Action)
    requires !a.SendReturns? && Next(s, a).Some? && Who(a) in s.threads
    requires HoldsItsLocks(s, Who(a)) && KnowsTheId(saved, s, Who(a)) && Settled(saved, s)
    requires s.io.Some? ==> s.io.value in s.threads && HoldsItsLocks(s, s.io.value)
    ensures KnowsTheId(saved, Next(s, a).value, Who(a)) && Settled(saved, Next(s, a).value)
  {
    hide LastId;
    SentGrows(s, a);
    if s.sent != [] {
      LastIdStep(saved, s.sent);
    }
  }

  /** One other step, for a thread that does not take it: the id changes only under _io_lock. */
  lemma IdKeptForOther(saved: nat, s: State, a: Action, t: nat)
    requires !a.SendReturns? && Next(s, a).Some? && Who(a) in s.threads && t in s.threads && t != Who(a)
    requires HoldsItsLocks(s, Who(a)) && HoldsItsLocks(s, t) && KnowsTheId(saved, s, t)
    ensures KnowsTheId(saved, Next(s, a).value, t)
  {
    hide LastId;
    SentGrows(s, a);
    OthersStay(s, a, t);
  }

  lemma IdKeptByCall(saved: nat, s: State, t: nat, kind: Kind)
    requires LocksAreHeld(s) && IdIsCurrent(saved, s) && t !in s.threads
    ensures IdIsCurrent(saved, Next(s, Call(t, kind)).value)
  {
    hide LastId, ReplacesLast, OnlyLastFails;
    var n := Next(s, Call(t, kind)).value;
    forall u | u in n.threads
      ensures KnowsTheId(saved, n, u)
    {
      assert u != t ==> KnowsTheId(saved, s, u);
    }
  }

  lemma IdKept(saved: nat, s: State, a: Action)
    requires LocksAreHeld(s) && IdIsCurrent(saved, s) && Next(s, a).Some?
    ensures IdIsCurrent(saved, Next(s, a).value)
  {
    hide ReplacesLast, OnlyLastFails, LastId, StepOf, KnowsTheId, HoldsItsLocks;
    if a.SendReturns? {
      IdKeptBySend(saved, s, a.thread, a.reply);
    } else if a.Call? {
      IdKeptByCall(saved, s, a.thread, a.kind);
    } else {
      var n := Next(s, a).value;
      SentGrows(s, a);
      OthersStay(s, a, Who(a));
      IdKeptForMover(saved, s, a);
      forall t | t in n.threads
        ensures KnowsTheId(saved, n, t)
      {
        if t != Who(a) {
          IdKeptForOther(saved, s, a, t);
        }
      }
    }
  }

  lemma OneStartBefore(s: State, a: Action)
    requires Next(s, a).Some? && OneStart(Next(s, a).value)
    ensures OneStart(s)
  {
    hide Next;
    var n := Next(s, a).value;
    forall t | t in s.threads
      ensures t in n.threads && n.threads[t].kind == s.threads[t].kind
    {
      OthersStay(s, a, t);
    }
  }

  /** The one start() cannot be arming a watchdog while another watchdog lives. */
  lemma NoneWhileArming(s: State, a: Action)
    requires OneStart(s) && WatchdogsAreKnown(s) && Next(s, a).Some? && a.ArmWatchdog?
    ensures s.shared.live == {}
  {
    assert OnlyStartArms(s, a.thread) && s.threads[a.thread].pc == InLock4;
    forall w | w in s.shared.live
      ensures IsThrough(s, w) && w == a.thread
    {
    }
  }

  lemma LiveAfter(s: State, a: Action)
    requires Next(s, a).Some? && WatchdogsAreKnown(s) && (a.ArmWatchdog? ==> s.shared.live == {})
    ensures var n := Next(s, a).value.shared;
            && (n.finalized ==> n.live == {})
            && (forall w :: w in n.live ==>
                  n.watchdog == Some(w) && (w in s.shared.live || (a.ArmWatchdog? && a.thread == w)))
  {
    hide IsThrough, OnlyStartArms;
  }

  lemma ThroughStays(s: State, a: Action, w: nat)
    requires Next(s, a).Some?
    requires IsThrough(s, w) || (a.ArmWatchdog? && a.thread == w && s.threads[w].kind == Start)
    ensures IsThrough(Next(s, a).value, w)
  {
  }

  lemma MoverStillArms(s: State, a: Action)
    requires Next(s, a).Some? && (Who(a) in s.threads ==> OnlyStartArms(s, Who(a)))
    ensures OnlyStartArms(Next(s, a).value, Who(a))
  {
    hide Announce, Claim, Record, Arm;
  }

  lemma StartStillArms(s: State, a: Action, t: nat)
    requires Next(s, a).Some? && t in Next(s, a).value.threads
    requires forall u :: u in s.threads ==> OnlyStartArms(s, u)
    ensures OnlyStartArms(Next(s, a).value, t)
  {
    hide Next;
    OthersStay(s, a, t);
    if t == Who(a) {
      MoverStillArms(s, a);
    } else {
      assert OnlyStartArms(s, t);
    }
  }

  lemma WatchdogsKept(s: State, a: Action)
    requires Next(s, a).Some? && OneStart(s) && WatchdogsAreKnown(s)
    ensures WatchdogsAreKnown(Next(s, a).value)
  {
    hide StepOf, IsThrough, OnlyStartArms, Arm;
    var n := Next(s, a).value;
    if a.ArmWatchdog? {
      NoneWhileArming(s, a);
      ArmerIsStart(s, a.thread);
    }
    LiveAfter(s, a);
    forall w | w in n.shared.live
      ensures IsThrough(n, w)
    {
      ThroughStays(s, a, w);
    }
    forall t | t in n.threads
      ensures OnlyStartArms(n, t)
    {
      StartStillArms(s, a, t);
    }
  }

  lemma ArmerIsStart(s: State, t: nat)
    requires t in s.threads && OnlyStartArms(s, t) && s.threads[t].pc.InLock4?
    ensures s.threads[t].kind == Start
  {
  }

  // --------------------------------------------------------------- the results

  lemma StepKeepsInv(saved: nat, s: State, a: Action)
    requires Inv(saved, s) && Next(s, a).Some?
    ensures Inv(saved, Next(s, a).value)
  {
    hide Next, LocksAreHeld, ResultsAreFinal, IdIsCurrent, WatchdogsAreKnown, OneStart;
    LocksKept(s, a);
    FinalKept(s, a);
    IdKept(saved, s, a);
    if OneStart(Next(s, a).value) {
      OneStartBefore(s, a);
      WatchdogsKept(s, a);
    }
  }

  lemma {:induction false} RunKeepsInv(saved: nat, s: State, actions: seq<Action>)
    requires Inv(saved, s) && Run(s, actions).Some?
    ensures Inv(saved, Run(s, actions).value)
    decreases actions
  {
    hide Next, Inv;
    if actions != [] {
      StepKeepsInv(saved, s, actions[0]);
      RunKeepsInv(saved, Next(s, actions[0]).value, actions[1..]);
    }
  }

  /** Whatever the threads and their interleaving: in-progress cards precede result cards, every card
      replaces the last id the server returned, nothing is sent after a failure, and with one start()
      no watchdog survives a result. */
  lemma CardsAreConsistent(saved: nat, enabled: bool, actions: seq<Action>)
    requires Run(Initial(saved, enabled), actions).Some?
    ensures var s := Run(Initial(saved, enabled), actions).value;
            && Ordered(s.sent)
            && ReplacesLast(saved, s.sent)
            && OnlyLastFails(s.sent)
            && (OneStart(s) && s.shared.finalized ==> s.shared.live == {})
  {
    var s := Initial(saved, enabled);
    assert LocksAreHeld(s) && ResultsAreFinal(s) && WatchdogsAreKnown(s);
    assert IdIsCurrent(saved, s);
    RunKeepsInv(saved, s, actions);
  }

  // ------------------------------------------------------- who gets a card out

  function CardsOf(sent: seq<Card>, t: nat): nat
  {
    if sent == [] then 0
    else CardsOf(sent[..|sent| - 1], t) + if sent[|sent| - 1].sender == t then 1 else 0
  }

  predicate NoneFailed(sent: seq<Card>)
  {
    forall i :: 0 <= i < |sent| ==> sent[i].reply.Answered?
  }

  /** A result is due in any case, an in-progress card if no result had been announced at the second check. */
  predicate Due(th: Thread)
  {
    th.checked.Some? && (th.kind == Result || th.checked == Some(false))
  }

  /** Up to its send a thread has no card out; from then on one, if it was due. A thread that is done without one
      came after a result had been announced. */
  predicate SentAsDue(s: State, t: nat)
    requires t in s.threads
  {
    var th, cards := s.threads[t], CardsOf(s.sent, t);
    match th.pc
    case Sending(_) => cards == 0 && Due(th)
    case WantLock3(reply) => cards == 1 && Due(th) && reply.Answered?
    case InLock3(reply) => cards == 1 && Due(th) && reply.Answered?
    case ReleaseIo(ok) => cards == (if ok then 1 else 0) && ok == Due(th) && (ok || s.shared.finalized) && th.checked.Some?
    case WantLock4 => cards == 1 && Due(th)
    case InLock4 => cards == 1 && Due(th)
    case Done => cards == (if Due(th) then 1 else 0) && (Due(th) || (th.kind != Result && s.shared.finalized))
    case _ => cards == 0 && th.checked == None
  }

  predicate Healthy(s: State)
  {
    && (forall i :: 0 <= i < |s.sent| ==> s.sent[i].sender in s.threads)
    && (NoneFailed(s.sent) ==> !s.shared.disabled && forall t :: t in s.threads ==> SentAsDue(s, t))
  }

  lemma CardsAppend(sent: seq<Card>, card: Card, t: nat)
    ensures CardsOf(sent + [card], t) == CardsOf(sent, t) + if card.sender == t then 1 else 0
    ensures NoneFailed(sent + [card]) <==> NoneFailed(sent) && card.reply.Answered?
  {
    var more := sent + [card];
    assert more[..|sent|] == sent && more[|sent|] == card;
    assert forall i :: 0 <= i < |sent| ==> more[i] == sent[i];
  }

  lemma {:induction false} NoCardsOf(sent: seq<Card>, t: nat)
    requires forall i :: 0 <= i < |sent| ==> sent[i].sender != t
    ensures CardsOf(sent, t) == 0
    decreases |sent|
  {
    if sent != [] {
      NoCardsOf(sent[..|sent| - 1], t);
    }
  }

  /** The thread that moves, when it does not send. */
  lemma DueForMover(s: State, a: Action)
    requires Next(s, a).Some? && !a.SendReturns? && !a.Call?
    requires !s.shared.disabled && SentAsDue(s, Who(a))
    ensures !Next(s, a).value.shared.disabled && SentAsDue(Next(s, a).value, Who(a))
  {
    hide CardsOf;
    SentGrows(s, a);
  }

  lemma DueForOther(s: State, a: Action, t: nat)
    requires Next(s, a).Some? && t in s.threads && t != Who(a) && SentAsDue(s, t)
    ensures SentAsDue(Next(s, a).value, t)
  {
    hide CardsOf, Next;
    SentGrows(s, a);
    OthersStay(s, a, t);
    if a.SendReturns? {
      CardsAppend(s.sent, Next(s, a).value.sent[|s.sent|], t);
    }
  }

  lemma DueForSender(s: State, t: nat, reply: Reply)
    requires Next(s, SendReturns(t, reply)).Some? && SentAsDue(s, t) && reply.Answered?
    ensures SentAsDue(Next(s, SendReturns(t, reply)).value, t)
  {
    hide CardsOf;
    var n := Next(s, SendReturns(t, reply)).value;
    CardsAppend(s.sent, n.sent[|s.sent|], t);
  }

  lemma DueForCaller(s: State, t: nat, kind: Kind)
    requires t !in s.threads && forall i :: 0 <= i < |s.sent| ==> s.sent[i].sender in s.threads
    ensures SentAsDue(Next(s, Call(t, kind)).value, t)
  {
    NoCardsOf(s.sent, t);
  }

  lemma DisabledStays(s: State, a: Action)
    requires Next(s, a).Some? && (a.SendReturns? || a.Call?)
    ensures Next(s, a).value.shared == s.shared
  {
  }

  lemma HealthyKept(s: State, a: Action)
    requires Healthy(s) && Next(s, a).Some?
    ensures Healthy(Next(s, a).value)
  {
    hide Next, NoneFailed, SentAsDue;
    var n := Next(s, a).value;
    SentGrows(s, a);
    OthersStay(s, a, Who(a));
    CallerIsNew(s, a);
    if a.SendReturns? {
      CardsAppend(s.sent, n.sent[|s.sent|], a.thread);
      DisabledStays(s, a);
    }
    if NoneFailed(n.sent) {
      forall t | t in n.threads
        ensures SentAsDue(n, t)
      {
        if t != Who(a) {
          DueForOther(s, a, t);
        } else if a.Call? {
          DueForCaller(s, t, a.kind);
        } else if a.SendReturns? {
          DueForSender(s, t, a.reply);
        } else {
          DueForMover(s, a);
        }
      }
      if a.Call? {
        DisabledStays(s, a);
      } else if !a.SendReturns? {
        DueForMover(s, a);
      }
    }
  }

  lemma CallerIsNew(s: State, a: Action)
    requires Next(s, a).Some?
    ensures a.Call? <==> Who(a) !in s.threads
  {
  }

  lemma {:induction false} RunKeepsHealthy(s: State, actions: seq<Action>)
    requires Healthy(s) && Run(s, actions).Some?
    ensures Healthy(Run(s, actions).value)
    decreases actions
  {
    hide Next, Healthy;
    if actions != [] {
      HealthyKept(s, actions[0]);
      RunKeepsHealthy(Next(s, actions[0]).value, actions[1..]);
    }
  }

  predicate MarkedRight(s: State)
  {
    forall i :: 0 <= i < |s.sent| ==>
      s.sent[i].sender in s.threads && (s.sent[i].final <==> s.threads[s.sent[i].sender].kind == Result)
  }

  lemma MarkedKept(s: State, a: Action)
    requires MarkedRight(s) && Next(s, a).Some?
    ensures MarkedRight(Next(s, a).value)
  {
    hide Next;
    var n := Next(s, a).value;
    SentGrows(s, a);
    if a.SendReturns? {
      SenderIsThere(s, a);
    }
    forall i | 0 <= i < |n.sent|
      ensures n.sent[i].sender in n.threads && (n.sent[i].final <==> n.threads[n.sent[i].sender].kind == Result)
    {
      if i < |s.sent| {
        assert n.sent[i] == s.sent[i];
      }
      OthersStay(s, a, n.sent[i].sender);
    }
  }

  lemma SenderIsThere(s: State, a: Action)
    requires Next(s, a).Some? && a.SendReturns?
    ensures a.thread in s.threads
  {
  }

  /** A card is final exactly if a result thread sent it. */
  lemma {:induction false} RunMarksRight(s: State, actions: seq<Action>)
    requires MarkedRight(s) && Run(s, actions).Some?
    ensures MarkedRight(Run(s, actions).value)
    decreases actions
  {
    hide Next, MarkedRight;
    if actions != [] {
      MarkedKept(s, actions[0]);
      RunMarksRight(Next(s, actions[0]).value, actions[1..]);
    }
  }

  /** Unless a send fails: every result thread that is done has got exactly one card out, marked final as no other
      thread's. An in-progress thread that is done has got its card out exactly if no result had been announced when
      it passed its second check; without one, a result has been announced. */
  lemma EveryResultIsSent(saved: nat, actions: seq<Action>, t: nat)
    requires Run(Initial(saved, true), actions).Some?
    requires var s := Run(Initial(saved, true), actions).value; NoneFailed(s.sent) && t in s.threads && s.threads[t].pc == Done
    ensures var s := Run(Initial(saved, true), actions).value;
            && (s.threads[t].kind == Result ==> CardsOf(s.sent, t) == 1)
            && (s.threads[t].kind != Result ==> CardsOf(s.sent, t) == (if s.threads[t].checked == Some(false) then 1 else 0))
            && (CardsOf(s.sent, t) == 0 ==> s.shared.finalized)
            && MarkedRight(s)
  {
    var start := Initial(saved, true);
    assert Healthy(start);
    RunKeepsHealthy(start, actions);
    RunMarksRight(start, actions);
    var s := Run(start, actions).value;
    assert SentAsDue(s, t);
  }

  /** A disabled notifier that has sent nothing: every thread turns back at once. */
  predicate Silent(s: State)
  {
    s.shared.disabled && s.sent == [] && forall t :: t in s.threads ==> s.threads[t].pc in {Begin, Done}
  }

  /** With notifications off, no run sends a card. */
  lemma {:induction false} DisabledSendsNothing(s: State, actions: seq<Action>)
    requires Silent(s) && Run(s, actions).Some?
    ensures Silent(Run(s, actions).value)
    decreases actions
  {
    hide Announce, Claim, Record, Arm;
    if actions != [] {
      DisabledSendsNothing(Next(s, actions[0]).value, actions[1..]);
    }
  }

  // --------------------------------------------------------- a watchdog that is armed

  lemma ArmsExactly(s: State, t: nat, spawns: bool)
    requires Next(s, ArmWatchdog(t, spawns)).Some? && t !in s.shared.live
    ensures var n := Next(s, ArmWatchdog(t, spawns)).value;
            t in n.shared.live <==> !s.shared.finalized && !s.shared.disabled && s.shared.id != 0 && spawns
  {
  }

  predicate Arms(a: Action, t: nat)
  {
    a.ArmWatchdog? && a.thread == t
  }

  /** A start() that is done without having come to its own section: no card of it went out. */
  predicate UnarmedMeansUnsent(s: State, t: nat)
  {
    t in s.threads && s.threads[t].kind == Start && s.threads[t].pc == Done ==> CardsOf(s.sent, t) == 0
  }

  lemma MoverEndsUnsent(s: State, a: Action)
    requires a.Step? && Next(s, a).Some? && SentAsDue(s, a.thread)
    ensures UnarmedMeansUnsent(Next(s, a).value, a.thread)
  {
    hide CardsOf, Announce, Claim, Record;
  }

  lemma StepLeavesUnsent(s: State, a: Action, t: nat)
    requires Healthy(s) && NoneFailed(s.sent) && Next(s, a).Some? && UnarmedMeansUnsent(s, t) && !Arms(a, t)
    ensures UnarmedMeansUnsent(Next(s, a).value, t)
  {
    hide Next, NoneFailed, SentAsDue, CardsOf;
    SentGrows(s, a);
    OthersStay(s, a, t);
    CallerIsNew(s, a);
    if t != Who(a) {
      if a.SendReturns? {
        CardsAppend(s.sent, Next(s, a).value.sent[|s.sent|], t);
      }
    } else if a.Step? {
      MoverEndsUnsent(s, a);
    } else {
      NotDoneYet(s, a);
    }
  }

  lemma NotDoneYet(s: State, a: Action)
    requires Next(s, a).Some? && (a.Call? || a.SendReturns?)
    ensures Next(s, a).value.threads[Who(a)].pc != Done
  {
  }

  lemma {:induction false} SentNeverShrinks(s: State, actions: seq<Action>)
    requires Run(s, actions).Some? && NoneFailed(Run(s, actions).value.sent)
    ensures NoneFailed(s.sent)
    decreases actions
  {
    hide Next;
    if actions != [] {
      var n := Next(s, actions[0]).value;
      SentNeverShrinks(n, actions[1..]);
      SentGrows(s, actions[0]);
      assert forall i :: 0 <= i < |s.sent| ==> n.sent[i] == s.sent[i];
    }
  }

  /** Unless a send fails, a start() whose card went out has come to the section that arms its watchdog before it is done. */
  lemma {:induction false} StartComesToArm(s: State, actions: seq<Action>, t: nat)
    requires Healthy(s) && Run(s, actions).Some? && UnarmedMeansUnsent(s, t)
    requires var end := Run(s, actions).value;
             NoneFailed(end.sent) && t in end.threads && end.threads[t].kind == Start && end.threads[t].pc == Done
             && CardsOf(end.sent, t) > 0
    ensures exists i :: 0 <= i < |actions| && Arms(actions[i], t)
    decreases actions
  {
    hide Next, Healthy, NoneFailed, CardsOf;
    if actions != [] && !Arms(actions[0], t) {
      SentNeverShrinks(s, actions);
      HealthyKept(s, actions[0]);
      StepLeavesUnsent(s, actions[0], t);
      StartComesToArm(Next(s, actions[0]).value, actions[1..], t);
      var i :| 0 <= i < |actions[1..]| && Arms(actions[1..][i], t);
      assert Arms(actions[i + 1], t);
    }
  }

  lemma WatchdogStays(s: State, a: Action)
    requires Next(s, a).Some? && OneStart(s) && WatchdogsAreKnown(s) && !Next(s, a).value.shared.finalized
    ensures s.shared.live <= Next(s, a).value.shared.live
  {
    hide WatchdogsAreKnown, OneStart;
    if a.ArmWatchdog? {
      NoneWhileArming(s, a);
    }
  }

  lemma {:induction false} RunKeepsOneStart(s: State, actions: seq<Action>)
    requires Run(s, actions).Some? && OneStart(Run(s, actions).value)
    ensures OneStart(s)
    decreases actions
  {
    hide Next, OneStart;
    if actions != [] {
      RunKeepsOneStart(Next(s, actions[0]).value, actions[1..]);
      OneStartBefore(s, actions[0]);
    }
  }

  lemma {:induction false} FinalizedStays(s: State, actions: seq<Action>)
    requires Run(s, actions).Some? && s.shared.finalized
    ensures Run(s, actions).value.shared.finalized
    decreases actions
  {
    hide Next;
    if actions != [] {
      SentGrows(s, actions[0]);
      FinalizedStays(Next(s, actions[0]).value, actions[1..]);
    }
  }

  /** With one start(), only a result kills the watchdog. */
  lemma {:induction false} OnlyResultsKillIt(s: State, actions: seq<Action>)
    requires Run(s, actions).Some? && OneStart(Run(s, actions).value) && !Run(s, actions).value.shared.finalized
    requires WatchdogsAreKnown(s)
    ensures s.shared.live <= Run(s, actions).value.shared.live
    decreases actions
  {
    hide Next, OneStart, WatchdogsAreKnown;
    if actions != [] {
      var n := Next(s, actions[0]).value;
      RunKeepsOneStart(n, actions[1..]);
      OneStartBefore(s, actions[0]);
      if n.shared.finalized {
        FinalizedStays(n, actions[1..]);
      }
      WatchdogStays(s, actions[0]);
      WatchdogsKept(s, actions[0]);
      OnlyResultsKillIt(n, actions[1..]);
    }
  }

  /** Steps a thread still has before it. */
  function StepsLeft(s: State, t: nat): nat
  {
    if t !in s.threads then 13
    else match s.threads[t].pc
      case Begin => 12 case WantLock1 => 11 case InLock1 => 10 case WantIo => 9 case WantLock2 => 8
      case InLock2 => 7 case Sending(_) => 6 case WantLock3(_) => 5 case InLock3(_) => 4
      case ReleaseIo(_) => 3 case WantLock4 => 2 case InLock4 => 1 case Done => 0
  }

  function StepsOf(actions: seq<Action>, t: nat): nat
    decreases actions
  {
    if actions == [] then 0 else (if Who(actions[0]) == t then 1 else 0) + StepsOf(actions[1..], t)
  }

  lemma MoverCounts(s: State, a: Action)
    requires Next(s, a).Some?
    ensures StepsLeft(Next(s, a).value, Who(a)) < StepsLeft(s, Who(a))
  {
    hide Announce, Claim, Record, Arm;
  }

  lemma StepCounts(s: State, a: Action, t: nat)
    requires Next(s, a).Some?
    ensures StepsLeft(Next(s, a).value, t) + (if Who(a) == t then 1 else 0) <= StepsLeft(s, t)
  {
    hide Next;
    OthersStay(s, a, t);
    MoverCounts(s, a);
  }

  /** No thread runs for ever: it is done after at most thirteen steps of its own. */
  lemma {:induction false} ThreadsAreBounded(s: State, actions: seq<Action>, t: nat)
    requires Run(s, actions).Some?
    ensures StepsOf(actions, t) + StepsLeft(Run(s, actions).value, t) <= StepsLeft(s, t)
    decreases actions
  {
    hide Next, StepsLeft;
    if actions != [] {
      StepCounts(s, actions[0], t);
      ThreadsAreBounded(Next(s, actions[0]).value, actions[1..], t);
    }
  }

  /** What a thread that is not done does next. */
  function NextAction(s: State, t: nat): Action
    requires t in s.threads
  {
    match s.threads[t].pc
    case Sending(_) => SendReturns(t, Failed)
    case InLock4 => ArmWatchdog(t, false)
    case _ => Step(t)
  }

  lemma MovesUnlessWaiting(s: State, t: nat)
    requires t in s.threads && s.threads[t].pc != Done
    requires HoldsLock(s.threads[t].pc) || s.lock == None
    requires s.threads[t].pc.WantIo? ==> s.io == None
    ensures Next(s, NextAction(s, t)).Some?
  {
    hide Announce, Claim, Record, Arm, At;
  }

  /** Two locks and no deadlock: as long as some thread is not done, some thread can move. */
  lemma SomeThreadMoves(s: State, t: nat) returns (mover: nat)
    requires LocksAreHeld(s) && t in s.threads && s.threads[t].pc != Done
    ensures mover in s.threads && Next(s, NextAction(s, mover)).Some?
  {
    hide NextAction, Next;
    mover := if s.lock.Some? then s.lock.value else if s.io.Some? then s.io.value else t;
    assert HoldsItsLocks(s, mover);
    MovesUnlessWaiting(s, mover);
  }
}
