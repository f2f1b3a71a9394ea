/**
 * How specs reach the main loop and how work is stopped when the machine is to be deleted (inbox, intake, the loop of
 * Run, aliveContext, stopAlive and the start of handleSpec in internal/agent/agent.go).
 *
 * A step is one piece of work between two points where another goroutine can run.
 */
module Inbox {
  import opened Wrappers

  datatype Spec = Spec(generation: int, deletion: bool)

  // ----- the contexts that work runs under -----

  /** Every context ever handed out, with whether it is cancelled, and which of them is kept to be handed out again. */
  datatype Contexts = Contexts(cancelled: seq<bool>, current: Option<nat>, deleting: bool, parentDone: bool) {
    predicate Valid() {
      && (current.Some? ==> current.value < |cancelled|)
      && (forall i :: 0 <= i < |cancelled| && !cancelled[i] ==> current == Some(i))
      && (deleting || parentDone ==> AllCancelled())
    }

    predicate AllCancelled() {
      forall i :: 0 <= i < |cancelled| ==> cancelled[i]
    }

    /** The context in use goes on if there is a live one; a new one is born cancelled while deleting. */
    function HandOut(): Contexts
      requires Valid()
    {
      if deleting then this.(cancelled := cancelled + [true])
      else if current.Some? && !cancelled[current.value] then this
      else this.(cancelled := cancelled + [parentDone], current := Some(|cancelled|))
    }

    /** The context that HandOut has just handed out. */
    function Handed(): nat
      requires Valid()
    {
      if !deleting && current.Some? && !cancelled[current.value] then current.value else |cancelled|
    }

    function Stopped(): Contexts
      requires Valid()
    {
      this.(deleting := true, cancelled := if current.Some? then cancelled[current.value := true] else cancelled)
    }

    function ParentCancelled(): Contexts {
      this.(parentDone := true, cancelled := seq(|cancelled|, _ => true))
    }

    /** Only the current context can be live, so that cancelling it cancels all; and what is cancelled stays so. */
    lemma StaysValid()
      requires Valid()
      ensures HandOut().Valid() && Stopped().Valid() && ParentCancelled().Valid()
      ensures Stopped().AllCancelled()
      ensures Handed() < |HandOut().cancelled|
      ensures HandOut().cancelled[Handed()] <==> deleting || parentDone
      ensures forall i :: 0 <= i < |cancelled| && cancelled[i] ==>
                HandOut().cancelled[i] && Stopped().cancelled[i] && ParentCancelled().cancelled[i]
    {
    }
  }

  /** The part of the agent behind aliveMu. */
  class Alive {
    var contexts: Contexts

    constructor ()
      ensures contexts == Contexts([], None, false, false)
    {
      contexts := Contexts([], None, false, false);
    }

    /** aliveContext. */
    method AliveContext() returns (ctx: nat)
      requires contexts.Valid()
      modifies this
      ensures contexts == old(contexts).HandOut() && ctx == old(contexts).Handed() && contexts.Valid()
      ensures ctx < |contexts.cancelled| && (contexts.cancelled[ctx] <==> contexts.deleting || contexts.parentDone)
    {
      contexts.StaysValid();
      var made := contexts.cancelled;
      if contexts.deleting {
        contexts := contexts.(cancelled := made + [true]);
        return |made|;
      }
      if contexts.current.None? || made[contexts.current.value] {
        contexts := contexts.(cancelled := made + [contexts.parentDone], current := Some(|made|));
      }
      ctx := contexts.current.value;
    }

    /** stopAlive. */
    method StopAlive()
      requires contexts.Valid()
      modifies this
      ensures contexts == old(contexts).Stopped() && contexts.Valid() && contexts.AllCancelled()
    {
      contexts.StaysValid();
      contexts := contexts.(deleting := true);
      if contexts.current.Some? {
        contexts := contexts.(cancelled := contexts.cancelled[contexts.current.value := true]);
      }
    }
  }

  // ----- the goroutines -----

  /** The intake: waiting for the stream, about to store a spec, about to signal it, about to look for a deletion. */
  datatype IntakePc = Waiting | Storing(spec: Spec) | Signalling(spec: Spec) | Looking(spec: Spec) | Closed

  datatype MainPc = Selecting | Reading | Starting(spec: Spec) | Working(ctx: nat) | Terminating | Ended

  datatype State = State(
    latest: Option<Spec>,
    signal: bool,
    wake: bool,
    highest: int,
    intake: IntakePc,
    main: MainPc,
    contexts: Contexts,
    // What an observer has seen: the specs stored and handed to handleSpec, and how many were stored at the last read.
    stored: seq<Spec>,
    handed: seq<Spec>,
    seen: nat)

  datatype Action =
    | Receive(spec: Spec)
    | Store
    | Signal
    | LookForDeletion
    | CloseStream
    | Poke
    | TakeSignal
    | TakeWake
    | TakeTick
    | Read
    | Start
    | FinishHandling(goesOn: bool)
    | CancelParent
    | Quit

  function Init(): State {
    State(None, false, false, -1, Waiting, Selecting, Contexts([], None, false, false), [], [], 0)
  }

  predicate CanDo(s: State, a: Action) {
    s.contexts.Valid() &&
    match a
    case Receive(_) => s.intake.Waiting?
    case Store => s.intake.Storing?
    case Signal => s.intake.Signalling?
    case LookForDeletion => s.intake.Looking?
    case CloseStream => s.intake.Waiting?
    case Poke => true
    case TakeSignal => s.main.Selecting? && s.signal
    case TakeWake => s.main.Selecting? && s.wake
    case TakeTick => s.main.Selecting?
    case Read => s.main.Reading?
    case Start => s.main.Starting?
    case FinishHandling(_) => s.main.Working? || s.main.Terminating?
    case CancelParent => true
    case Quit => s.main.Selecting? && (s.contexts.parentDone || s.intake.Closed?)
  }

  function Do(s: State, a: Action): State
    requires CanDo(s, a)
  {
    match a
    case Receive(spec) =>
      if spec.generation < s.highest then s else s.(highest := spec.generation, intake := Storing(spec))
    case Store =>
      s.(latest := Some(s.intake.spec), stored := s.stored + [s.intake.spec], intake := Signalling(s.intake.spec))
    case Signal => s.(signal := true, intake := Looking(s.intake.spec))
    case LookForDeletion =>
      s.(contexts := if s.intake.spec.deletion then s.contexts.Stopped() else s.contexts, intake := Waiting)
    case CloseStream => s.(intake := Closed)
    case Poke => s.(wake := true)
    case TakeSignal => s.(signal := false, main := Reading)
    case TakeWake => s.(wake := false, main := Reading)
    case TakeTick => s.(main := Reading)
    case Read =>
      if s.latest.None? then s.(main := Selecting)
      else s.(main := Starting(s.latest.value), handed := s.handed + [s.latest.value], seen := |s.stored|)
    case Start =>
      if s.main.spec.deletion then s.(contexts := s.contexts.Stopped(), main := Terminating)
      else s.(contexts := s.contexts.HandOut(), main := Working(s.contexts.Handed()))
    case FinishHandling(goesOn) => s.(main := if goesOn then Selecting else Ended)
    case CancelParent => s.(contexts := s.contexts.ParentCancelled())
    case Quit => s.(main := Ended)
  }

  // ----- what every step keeps -----

  predicate Ascending(specs: seq<Spec>) {
    forall i, j :: 0 <= i <= j < |specs| ==> specs[i].generation <= specs[j].generation
  }

  /** A deletion has been stored. */
  predicate Deleted(stored: seq<Spec>) {
    exists i :: 0 <= i < |stored| && stored[i].deletion
  }

  /** The intake has stored this spec and not yet looked whether it asks for deletion. */
  predicate AboutToLook(intake: IntakePc, deletion: bool) {
    (intake.Signalling? || intake.Looking?) && intake.spec.deletion == deletion
  }

  /** What is stored, and the generation that the intake goes by. */
  predicate StoredInv(s: State) {
    && s.latest == (if s.stored == [] then None else Some(s.stored[|s.stored| - 1]))
    && (s.latest.Some? ==> s.latest.value.generation <= s.highest)
    && (s.intake.Storing? ==> s.intake.spec.generation == s.highest)
    && (s.intake.Signalling? || s.intake.Looking? ==> s.latest == Some(s.intake.spec))
    && Ascending(s.stored)
  }

  /** A spec that the loop has not seen is about to be signalled, has been, or is about to be read. */
  predicate WakeInv(s: State) {
    s.seen <= |s.stored| && (s.seen < |s.stored| ==> s.signal || s.intake.Signalling? || s.main.Reading?)
  }

  /** What is handed on is what was stored last at the time. */
  predicate HandedInv(s: State) {
    && s.seen <= |s.stored|
    && Ascending(s.handed)
    && (if s.seen == 0 then s.handed == [] else s.handed != [] && s.handed[|s.handed| - 1] == s.stored[s.seen - 1])
    && (s.main.Starting? ==> s.seen > 0 && s.main.spec == s.stored[s.seen - 1])
  }

  /** A deletion that the intake is past has stopped all work. */
  predicate DeletionInv(s: State) {
    && s.contexts.Valid()
    && (Deleted(s.stored) ==> s.contexts.deleting || AboutToLook(s.intake, true))
    && (s.main.Terminating? ==> s.contexts.deleting)
    && (s.main.Working? ==> s.main.ctx < |s.contexts.cancelled|)
  }

  predicate Inv(s: State) {
    StoredInv(s) && WakeInv(s) && HandedInv(s) && DeletionInv(s)
  }

  predicate IntakeStep(a: Action) {
    a.Receive? || a.Store? || a.Signal? || a.LookForDeletion? || a.CloseStream?
  }

  lemma StepStored(s: State, a: Action)
    requires StoredInv(s) && CanDo(s, a)
    ensures StoredInv(Do(s, a))
  {
    if !IntakeStep(a) {
      MainLeavesIntake(s, a);
    }
  }

  lemma MainLeavesIntake(s: State, a: Action)
    requires CanDo(s, a) && !IntakeStep(a)
    ensures var t := Do(s, a);
            t.stored == s.stored && t.latest == s.latest && t.highest == s.highest && t.intake == s.intake
  {
  }

  lemma StepWake(s: State, a: Action)
    requires WakeInv(s) && StoredInv(s) && CanDo(s, a)
    ensures WakeInv(Do(s, a))
  {
  }

  lemma StepHanded(s: State, a: Action)
    requires HandedInv(s) && StoredInv(s) && CanDo(s, a)
    ensures HandedInv(Do(s, a))
  {
    if IntakeStep(a) {
      IntakeLeavesMain(s, a);
    } else if a.Read? {
      ReadHanded(s);
    } else {
      assert Do(s, a).handed == s.handed && Do(s, a).stored == s.stored && Do(s, a).seen == s.seen;
    }
  }

  lemma IntakeLeavesMain(s: State, a: Action)
    requires CanDo(s, a) && IntakeStep(a)
    ensures var t := Do(s, a);
            t.main == s.main && t.handed == s.handed && t.seen == s.seen && s.stored <= t.stored
  {
  }

  lemma ReadHanded(s: State)
    requires HandedInv(s) && StoredInv(s) && CanDo(s, Read)
    ensures HandedInv(Do(s, Read))
  {
    if s.latest.Some? && s.seen > 0 {
      assert s.stored[s.seen - 1].generation <= s.stored[|s.stored| - 1].generation;
    }
  }

  /** A store is of a deletion only if one had been stored, or the intake is about to look at it. */
  lemma StoreDeletion(stored: seq<Spec>, spec: Spec)
    ensures Deleted(stored + [spec]) <==> Deleted(stored) || spec.deletion
  {
    var after := stored + [spec];
    if Deleted(stored) {
      var i :| 0 <= i < |stored| && stored[i].deletion;
      assert after[i].deletion;
    }
    assert after[|stored|] == spec;
  }

  lemma IntakeDeletion(s: State, a: Action)
    requires DeletionInv(s) && CanDo(s, a) && IntakeStep(a)
    ensures DeletionInv(Do(s, a))
  {
    if a.Store? {
      StoreDeletion(s.stored, s.intake.spec);
    } else {
      s.contexts.StaysValid();
      assert Do(s, a).stored == s.stored;
    }
  }

  lemma MainDeletion(s: State, a: Action)
    requires DeletionInv(s) && CanDo(s, a) && !IntakeStep(a)
    ensures DeletionInv(Do(s, a))
  {
    s.contexts.StaysValid();
    assert Do(s, a).stored == s.stored && Do(s, a).intake == s.intake;
  }

  lemma StepDeletion(s: State, a: Action)
    requires DeletionInv(s) && CanDo(s, a)
    ensures DeletionInv(Do(s, a))
  {
    if IntakeStep(a) {
      IntakeDeletion(s, a);
    } else {
      MainDeletion(s, a);
    }
  }

  lemma StepInv(s: State, a: Action)
    requires Inv(s) && CanDo(s, a)
    ensures Inv(Do(s, a))
  {
    StepStored(s, a);
    StepWake(s, a);
    StepHanded(s, a);
    StepDeletion(s, a);
  }

  // ----- runs -----

  /** A run that can be made from the state. */
  predicate IsRun(s: State, run: seq<Action>)
    decreases |run|
  {
    run == [] || (CanDo(s, run[0]) && IsRun(Do(s, run[0]), run[1..]))
  }

  function After(s: State, run: seq<Action>): State
    requires IsRun(s, run)
    decreases |run|
  {
    if run == [] then s else After(Do(s, run[0]), run[1..])
  }

  /** Deleting is for ever, and everything stored and every context stays. */
  ghost predicate Grows(s: State, t: State) {
    && (s.contexts.deleting ==> t.contexts.deleting)
    && s.stored <= t.stored && s.handed <= t.handed && |s.contexts.cancelled| <= |t.contexts.cancelled|
  }

  lemma StepGrows(s: State, a: Action)
    requires CanDo(s, a)
    ensures Grows(s, Do(s, a))
  {
  }

  lemma {:induction false} RunInv(s: State, run: seq<Action>)
    requires Inv(s) && IsRun(s, run)
    ensures Inv(After(s, run)) && Grows(s, After(s, run))
    decreases |run|
  {
    if run != [] {
      StepInv(s, run[0]);
      StepGrows(s, run[0]);
      RunInv(Do(s, run[0]), run[1..]);
    }
  }

  const INTAKE_ROUND := [Store, Signal]

  /** A spec that is not older than one already received is stored and signalled, also one of the same generation. */
  lemma NotOlderIsStored(s: State, spec: Spec)
    requires Inv(s) && s.intake.Waiting? && spec.generation >= s.highest
    ensures IsRun(s, [Receive(spec)] + INTAKE_ROUND)
    ensures var t := After(s, [Receive(spec)] + INTAKE_ROUND);
            t.latest == Some(spec) && t.signal && t.stored == s.stored + [spec] && t.highest == spec.generation
  {
    var s1 := Do(s, Receive(spec));
    var s2 := Do(s1, Store);
    var last := [Signal];
    assert last[1..] == [] && INTAKE_ROUND == [Store] + last && INTAKE_ROUND[1..] == last;
    assert ([Receive(spec)] + INTAKE_ROUND)[1..] == INTAKE_ROUND;
    assert IsRun(s2, last) && After(s2, last) == Do(s2, Signal);
  }

  /** An older one changes nothing. */
  lemma OlderIsDropped(s: State, spec: Spec)
    requires CanDo(s, Receive(spec)) && spec.generation < s.highest
    ensures Do(s, Receive(spec)) == s
  {
  }

  /**
   * No wake-up is lost: at any time, a spec that the loop has not read yet is being signalled, has its signal pending,
   * or is about to be read. Once the intake waits for the stream and the loop has nothing to do, the last spec handed
   * on is the last one stored.
   */
  lemma NoLostWakeUp(run: seq<Action>)
    requires IsRun(Init(), run)
    ensures var s := After(Init(), run);
            && (s.seen < |s.stored| ==> s.signal || s.intake.Signalling? || s.main.Reading?)
            && (s.intake.Waiting? && s.main.Selecting? && !s.signal && s.stored != [] ==>
                  s.handed != [] && s.handed[|s.handed| - 1] == s.stored[|s.stored| - 1])
  {
    RunInv(Init(), run);
  }

  /** A pending signal brings the loop to the last spec stored in two steps. */
  lemma SignalIsAnswered(s: State)
    requires Inv(s) && s.main.Selecting? && s.signal && s.stored != []
    ensures CanDo(s, TakeSignal) && CanDo(Do(s, TakeSignal), Read)
    ensures var t := Do(Do(s, TakeSignal), Read);
            && t.seen == |t.stored| && t.main == Starting(s.stored[|s.stored| - 1])
            && t.handed == s.handed + [s.stored[|s.stored| - 1]]
  {
  }

  /** The specs handed to handleSpec never go back a generation. */
  lemma GenerationsNeverDecrease(run: seq<Action>, i: nat, j: nat)
    requires IsRun(Init(), run)
    requires i <= j < |After(Init(), run).handed|
    ensures After(Init(), run).handed[i].generation <= After(Init(), run).handed[j].generation
  {
    RunInv(Init(), run);
  }

  /**
   * Once the intake is past a deletion, every context ever handed out is cancelled, and so is every one handed out
   * later, whatever else happens.
   */
  lemma DeletionStopsAllWork(before: seq<Action>, later: seq<Action>)
    requires IsRun(Init(), before) && IsRun(After(Init(), before), later)
    requires var s := After(Init(), before); Deleted(s.stored) && !AboutToLook(s.intake, true)
    ensures var s, t := After(Init(), before), After(After(Init(), before), later);
            && s.contexts.AllCancelled() && t.contexts.AllCancelled()
            && (t.main.Working? ==> t.main.ctx < |t.contexts.cancelled| && t.contexts.cancelled[t.main.ctx])
  {
    RunInv(Init(), before);
    RunInv(After(Init(), before), later);
  }
}
