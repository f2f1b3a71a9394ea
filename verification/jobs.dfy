/**
 * The main loop and its background jobs, restore and checkpoint, as a step relation (internal/state: startRestore,
 * runRestore, stopRestore, Checkpoint, runCheckpoint, checkpointOnce, stopCheckpoints, and the order of Save).
 *
 * A step is one piece of work between two points where another goroutine can run. Every critical section that does not
 * wait is one step, enabled while the mutex is free; startRestore, which waits for the old job inside its critical
 * section, is the one holder that shows.
 */
module Jobs {
  import opened Wrappers

  type Key = string
  type Digest = string

  /**
   * Past(ok): past the check whether the job was stopped, with the outcome of the work. Marked(ok): the marker is
   * written, or not, and the end of the job is yet to be signalled.
   */
  datatype RestorePc = Working | Past(ok: bool) | Marked(ok: bool) | Over

  datatype RestoreJob = RestoreJob(key: Key, pc: RestorePc, stopped: bool, result: Option<bool>)

  datatype CheckpointPc =
    | Packing
    | Comparing(sum: Digest)
    | Asking(sum: Digest)
    | Uploading(sum: Digest)
    | Committing(sum: Digest)
    | Storing(sum: Digest)
    | Stamping
    | Closing
    | Closed

  datatype CheckpointJob = CheckpointJob(pc: CheckpointPc, cancelled: bool)

  datatype MainPc =
    | Idle
    | EnteringRestore(key: Key)
    | EnteringCheckpoint(every: nat)
    | ReplacingRestore(key: Key)
    | SaveStopsRestore
    | SaveSeals
    | SaveStopsCheckpoint
    | Saving

  /** When a checkpoint began, the interval of the spec that started it, and when its work ended. */
  datatype Span = Span(began: nat, every: nat, ended: Option<nat>)

  datatype State = State(
    clock: nat,
    locked: bool,
    main: MainPc,
    restores: seq<RestoreJob>,
    checkpoints: seq<CheckpointJob>,
    checkpointAt: Option<nat>,
    checkpointSum: Option<Digest>,
    sealed: bool,
    restored: bool,
    started: bool,
    // What an observer has seen over all processes of the agent:
    acked: Option<Digest>,
    history: seq<Span>)

  datatype Action =
    | Tick(passed: nat)
    | ContainerStarts
    | CallRestore(key: Key)
    | EnterRestore
    | FinishReplace
    | CallCheckpoint(every: nat)
    | EnterCheckpoint
    | CallSave
    | RestoreStopped
    | Seal
    | CheckpointStopped
    | SaveReturns
    | RestoreWorks(ok: bool, parentGone: bool)
    | RestoreMarks(written: bool)
    | RestoreCloses
    | CheckpointPacks(sum: Option<Digest>)
    | CheckpointCompares
    | CheckpointAsks(granted: bool)
    | CheckpointUploads(ok: bool)
    | CheckpointCommits(acknowledged: bool)
    | CheckpointStores
    | CheckpointStamps
    | CheckpointCloses
    | Restart

  function Init(): State {
    State(0, false, Idle, [], [], None, None, false, false, false, None, [])
  }

  function LastRestore(s: State): RestoreJob
    requires s.restores != []
  {
    s.restores[|s.restores| - 1]
  }

  function LastCheckpoint(s: State): CheckpointJob
    requires s.checkpoints != []
  {
    s.checkpoints[|s.checkpoints| - 1]
  }

  predicate RestoreRuns(s: State) {
    s.restores != [] && !LastRestore(s).pc.Over?
  }

  predicate CheckpointRuns(s: State) {
    s.checkpoints != [] && !LastCheckpoint(s).pc.Closed?
  }

  function WithRestore(s: State, j: RestoreJob): State
    requires s.restores != []
  {
    s.(restores := s.restores[|s.restores| - 1 := j])
  }

  function WithCheckpoint(s: State, pc: CheckpointPc): State
    requires s.checkpoints != []
  {
    s.(checkpoints := s.checkpoints[|s.checkpoints| - 1 := LastCheckpoint(s).(pc := pc)])
  }

  function StopRestore(s: State): State
    requires s.restores != []
  {
    WithRestore(s, LastRestore(s).(stopped := true))
  }

  function CancelCheckpoint(s: State): State
    requires s.checkpoints != []
  {
    s.(checkpoints := s.checkpoints[|s.checkpoints| - 1 := LastCheckpoint(s).(cancelled := true)])
  }

  function Spawned(s: State, key: Key): State {
    s.(restores := s.restores + [RestoreJob(key, Working, false, None)], main := Idle, locked := false)
  }

  /** The end of a checkpoint's work, as the observer notes it. */
  function Ended(s: State): seq<Span> {
    if s.history != [] && s.history[|s.history| - 1].ended.None?
    then s.history[|s.history| - 1 := s.history[|s.history| - 1].(ended := Some(s.clock))]
    else s.history
  }

  // ----- steps -----

  /** The job's own steps do not wait for anything but the mutex where they need it. */
  predicate CheckpointAt(s: State, a: Action) {
    CheckpointRuns(s) &&
    match LastCheckpoint(s).pc
    case Packing => a.CheckpointPacks?
    case Comparing(_) => a.CheckpointCompares? && !s.locked
    case Asking(_) => a.CheckpointAsks?
    case Uploading(_) => a.CheckpointUploads?
    case Committing(_) => a.CheckpointCommits?
    case Storing(_) => a.CheckpointStores? && !s.locked
    case Stamping => a.CheckpointStamps? && !s.locked
    case Closing => a.CheckpointCloses?
    case Closed => false
  }

  predicate RestoreAt(s: State, a: Action) {
    RestoreRuns(s) &&
    match LastRestore(s).pc
    case Working => a.RestoreWorks?
    case Past(_) => a.RestoreMarks?
    case Marked(_) => a.RestoreCloses?
    case Over => false
  }

  predicate CanDo(s: State, a: Action) {
    match a
    case Tick(_) => true
    case ContainerStarts => true
    case Restart => true
    case CallRestore(_) => s.main.Idle? && !s.restored
    case EnterRestore => s.main.EnteringRestore? && !s.locked
    case FinishReplace => s.main.ReplacingRestore? && s.restores != [] && !RestoreRuns(s)
    case CallCheckpoint(_) => s.main.Idle?
    case EnterCheckpoint => s.main.EnteringCheckpoint? && !s.locked
    case CallSave => s.main.Idle? && !s.locked
    case RestoreStopped => s.main.SaveStopsRestore? && !RestoreRuns(s)
    case Seal => s.main.SaveSeals? && !s.locked
    case CheckpointStopped => s.main.SaveStopsCheckpoint? && !CheckpointRuns(s)
    case SaveReturns => s.main.Saving?
    case _ => RestoreAt(s, a) || CheckpointAt(s, a)
  }

  function RestoreDo(s: State, a: Action): State
    requires RestoreAt(s, a)
  {
    match a
    case RestoreWorks(ok, parentGone) =>
      WithRestore(s, LastRestore(s).(pc := if LastRestore(s).stopped || parentGone then Over else Past(ok)))
    case RestoreMarks(written) =>
      var ok := LastRestore(s).pc.ok && written;
      WithRestore(s, LastRestore(s).(pc := Marked(ok))).(restored := s.restored || ok)
    case RestoreCloses => WithRestore(s, LastRestore(s).(pc := Over, result := Some(LastRestore(s).pc.ok)))
  }

  /** Where the job is after its step. */
  function NextPc(s: State, a: Action): CheckpointPc
    requires CheckpointAt(s, a)
  {
    var pc := LastCheckpoint(s).pc;
    match a
    case CheckpointPacks(sum) => if sum.Some? then Comparing(sum.value) else Stamping
    case CheckpointCompares => if Skips(s) then Stamping else Asking(pc.sum)
    case CheckpointAsks(granted) => if granted then Uploading(pc.sum) else Stamping
    case CheckpointUploads(ok) => if ok then Committing(pc.sum) else Stamping
    case CheckpointCommits(acknowledged) => if acknowledged then Storing(pc.sum) else Stamping
    case CheckpointStores => Stamping
    case CheckpointStamps => Closing
    case CheckpointCloses => Closed
  }

  function CheckpointDo(s: State, a: Action): State
    requires CheckpointAt(s, a)
  {
    var pc, moved := LastCheckpoint(s).pc, WithCheckpoint(s, NextPc(s, a));
    match a
    case CheckpointCommits(acknowledged) => moved.(acked := if acknowledged then Some(pc.sum) else s.acked)
    case CheckpointStores => moved.(checkpointSum := Some(pc.sum))
    case CheckpointStamps => moved.(checkpointAt := Some(s.clock), history := Ended(s))
    case _ => moved
  }

  function Do(s: State, a: Action): State
    requires CanDo(s, a)
  {
    match a
    case Tick(passed) => s.(clock := s.clock + passed)
    case ContainerStarts => s.(started := true)
    case Restart =>
      s.(locked := false, main := Idle, restores := [], checkpoints := [], checkpointAt := None, checkpointSum := None,
         sealed := false, history := Ended(s))
    case CallRestore(key) => s.(main := EnteringRestore(key))
    case EnterRestore =>
      var key := s.main.key;
      if s.restores == [] then Spawned(s, key)
      else if RestoreRuns(s) then
        if LastRestore(s).key == key then s.(main := Idle)
        else StopRestore(s).(main := ReplacingRestore(key), locked := true)
      else if LastRestore(s).key == key && LastRestore(s).result.Some? then s.(main := Idle)
      else Spawned(s, key)
    case FinishReplace => Spawned(s, s.main.key)
    case CallCheckpoint(every) => if s.restored && s.started then s.(main := EnteringCheckpoint(every)) else s
    case EnterCheckpoint =>
      var every := s.main.every;
      if s.sealed || CheckpointRuns(s) then s.(main := Idle)
      else if s.checkpointAt.None? then s.(main := Idle, checkpointAt := Some(s.clock))
      else if s.clock < s.checkpointAt.value + every then s.(main := Idle)
      else s.(main := Idle, checkpoints := s.checkpoints + [CheckpointJob(Packing, false)],
              history := s.history + [Span(s.clock, every, None)])
    case CallSave =>
      if s.restores == [] then s.(main := SaveSeals) else StopRestore(s).(main := SaveStopsRestore)
    case RestoreStopped => s.(main := SaveSeals)
    case Seal =>
      if s.checkpoints == [] then s.(sealed := true, main := Saving)
      else CancelCheckpoint(s).(sealed := true, main := SaveStopsCheckpoint)
    case CheckpointStopped => s.(main := Saving)
    case SaveReturns => s.(main := Idle)
    case _ => if RestoreAt(s, a) then RestoreDo(s, a) else CheckpointDo(s, a)
  }

  /** The archive just packed is taken as unchanged. */
  predicate Skips(s: State) {
    CheckpointRuns(s) && LastCheckpoint(s).pc.Comparing? && s.checkpointSum == Some(LastCheckpoint(s).pc.sum)
  }

  // ----- the invariant -----

  predicate OneAtATime(s: State) {
    && (forall i | 0 <= i < |s.restores| - 1 :: s.restores[i].pc.Over?)
    && (forall i | 0 <= i < |s.checkpoints| - 1 :: s.checkpoints[i].pc.Closed?)
  }

  /** While Save packs and uploads, and before, no job that it has stopped runs any more. */
  predicate SaveIsAlone(s: State) {
    && (s.main.SaveSeals? || s.main.SaveStopsCheckpoint? || s.main.Saving? ==> !RestoreRuns(s))
    && (s.main.Saving? ==> !CheckpointRuns(s))
    && (s.main.SaveStopsCheckpoint? || s.main.Saving? ==> s.sealed)
  }

  predicate LockedOnlyToReplace(s: State) {
    && (s.locked <==> s.main.ReplacingRestore?)
    && (s.main.ReplacingRestore? || s.main.SaveStopsRestore? ==> s.restores != [] && LastRestore(s).stopped)
    && (s.main.SaveStopsCheckpoint? ==> s.checkpoints != [] && LastCheckpoint(s).cancelled)
  }

  /** What is remembered as unchanged is what the backend acknowledged last. */
  predicate SumIsAcked(s: State) {
    if CheckpointRuns(s) && LastCheckpoint(s).pc.Storing? then s.acked == Some(LastCheckpoint(s).pc.sum)
    else s.checkpointSum.Some? ==> s.checkpointSum == s.acked
  }

  /** The end of one checkpoint and the interval of the next lie before the next begins. */
  predicate SpacedOut(history: seq<Span>) {
    forall i | 0 < i < |history| :: SpacedAt(history, i)
  }

  predicate SpacedAt(history: seq<Span>, i: nat)
    requires 0 < i < |history|
  {
    history[i - 1].ended.Some? && history[i - 1].ended.value + history[i].every <= history[i].began
  }

  predicate SpanFits(span: Span, clock: nat) {
    span.began <= clock && (span.ended.Some? ==> span.began <= span.ended.value <= clock)
  }

  predicate SpansFit(s: State) {
    forall span <- s.history :: SpanFits(span, s.clock)
  }

  /** The last span is open exactly while the last job has not stamped its end, and the stamp counts for the next. */
  predicate LastSpanFits(s: State) {
    && (s.checkpoints != [] ==> s.history != [])
    && (s.checkpointAt.Some? ==> s.checkpointAt.value <= s.clock)
    && (s.history != [] ==>
          var ended := s.history[|s.history| - 1].ended;
          && (ended.None? <==> CheckpointRuns(s) && !LastCheckpoint(s).pc.Closing?)
          && (ended.Some? && s.checkpointAt.Some? ==> ended.value <= s.checkpointAt.value))
  }

  predicate Inv(s: State) {
    OneAtATime(s) && SaveIsAlone(s) && LockedOnlyToReplace(s) && SumIsAcked(s)
    && SpacedOut(s.history) && SpansFit(s) && LastSpanFits(s)
  }

  lemma InitInv()
    ensures Inv(Init())
  {
  }

  lemma SpacedEnded(s: State)
    requires SpacedOut(s.history)
    ensures SpacedOut(Ended(s))
  {
    var ended := Ended(s);
    forall i | 0 < i < |ended|
      ensures SpacedAt(ended, i)
    {
      assert SpacedAt(s.history, i);
    }
  }

  lemma SpacedAppended(history: seq<Span>, span: Span)
    requires SpacedOut(history)
    requires history != [] ==>
               var last := history[|history| - 1].ended;
               last.Some? && last.value + span.every <= span.began
    ensures SpacedOut(history + [span])
  {
    var longer := history + [span];
    forall i | 0 < i < |longer|
      ensures SpacedAt(longer, i)
    {
      assert i < |history| ==> SpacedAt(history, i);
    }
  }

  lemma RestoreStepInv(s: State, a: Action)
    requires Inv(s) && CanDo(s, a) && RestoreAt(s, a)
    ensures Inv(Do(s, a))
  {
    var t := Do(s, a);
    RestoreMovedInv(s, LastRestore(t));
    assert t == WithRestore(s, LastRestore(t)).(restored := t.restored);
  }

  /** The last restore goes on, is stopped or is over. */
  lemma RestoreMovedInv(s: State, j: RestoreJob)
    requires Inv(s) && s.restores != [] && (LastRestore(s).stopped ==> j.stopped)
    requires !j.pc.Over? ==> RestoreRuns(s)
    ensures Inv(WithRestore(s, j))
  {
    var t := WithRestore(s, j);
    assert t.history == s.history && t.checkpoints == s.checkpoints;
  }

  lemma CheckpointStepInv(s: State, a: Action)
    requires Inv(s) && CanDo(s, a) && CheckpointAt(s, a)
    ensures Inv(Do(s, a))
  {
    if a.CheckpointStamps? {
      StampInv(s);
    } else if a.CheckpointCommits? {
      CommitInv(s, a.acknowledged);
    } else if a.CheckpointStores? {
      StoreInv(s);
    } else {
      MovedInv(s, NextPc(s, a));
    }
  }

  /** A job that goes on, or is over after its stamp, and neither has nor had a digest to store. */
  lemma MovedInv(s: State, pc: CheckpointPc)
    requires Inv(s) && CheckpointRuns(s) && !LastCheckpoint(s).pc.Storing? && !pc.Storing?
    requires LastCheckpoint(s).pc.Closing? == (pc.Closing? || pc.Closed?)
    ensures Inv(WithCheckpoint(s, pc))
  {
    assert WithCheckpoint(s, pc).history == s.history;
  }

  lemma CommitInv(s: State, acknowledged: bool)
    requires Inv(s) && CanDo(s, CheckpointCommits(acknowledged))
    ensures Inv(Do(s, CheckpointCommits(acknowledged)))
  {
    assert Do(s, CheckpointCommits(acknowledged)).history == s.history;
  }

  lemma StoreInv(s: State)
    requires Inv(s) && CanDo(s, CheckpointStores)
    ensures Inv(Do(s, CheckpointStores))
  {
    assert Do(s, CheckpointStores).history == s.history;
  }

  lemma StampInv(s: State)
    requires Inv(s) && CanDo(s, CheckpointStamps)
    ensures Inv(Do(s, CheckpointStamps))
  {
    var t := Do(s, CheckpointStamps);
    var last := s.history[|s.history| - 1];
    assert last in s.history;
    SpacedEnded(s);
    forall span <- t.history
      ensures SpanFits(span, t.clock)
    {
      assert span in s.history || span == last.(ended := Some(s.clock));
    }
  }

  /** The steps that neither job takes. */
  lemma MainStepInv(s: State, a: Action)
    requires Inv(s) && CanDo(s, a) && !RestoreAt(s, a) && !CheckpointAt(s, a)
    ensures Inv(Do(s, a))
  {
    match a {
      case EnterCheckpoint => EnterCheckpointInv(s);
      case Restart => RestartInv(s);
      case Tick(_) => TickInv(s, a);
      case _ => CallInv(s, a);
    }
  }

  lemma TickInv(s: State, a: Action)
    requires Inv(s) && a.Tick?
    ensures Inv(Do(s, a))
  {
    var t := Do(s, a);
    forall span <- t.history
      ensures SpanFits(span, t.clock)
    {
      assert SpanFits(span, s.clock);
    }
  }

  lemma CallInv(s: State, a: Action)
    requires Inv(s) && CanDo(s, a) && !RestoreAt(s, a) && !CheckpointAt(s, a)
    requires !a.EnterCheckpoint? && !a.Restart? && !a.Tick?
    ensures Inv(Do(s, a))
  {
    if a.EnterRestore? || a.FinishReplace? {
      ReplaceInv(s, a);
    } else if a.CallSave? || a.Seal? {
      SaveInv(s, a);
    } else if !a.ContainerStarts? && Do(s, a) != s {
      MainMovesInv(s, Do(s, a).main);
    } else {
      assert Do(s, a).(started := s.started) == s;
    }
  }

  /** The main loop takes up a call or goes on in one, without the mutex and without a job of its own. */
  lemma MainMovesInv(s: State, main: MainPc)
    requires Inv(s) && !s.main.ReplacingRestore? && !main.ReplacingRestore?
    requires !main.SaveStopsRestore? && !main.SaveStopsCheckpoint?
    requires main.SaveSeals? || main.Saving? ==> !RestoreRuns(s)
    requires main.Saving? ==> !CheckpointRuns(s) && s.sealed
    ensures Inv(s.(main := main))
  {
    assert s.(main := main).history == s.history;
  }

  lemma SaveInv(s: State, a: Action)
    requires Inv(s) && CanDo(s, a) && (a.CallSave? || a.Seal?)
    ensures Inv(Do(s, a))
  {
    if a.Seal? {
      SealInv(s);
    } else if s.restores == [] {
      MainMovesInv(s, SaveSeals);
    } else {
      var j := LastRestore(s).(stopped := true);
      RestoreMovedInv(s, j);
      assert WithRestore(s, j).(main := SaveStopsRestore).history == s.history;
    }
  }

  lemma SealInv(s: State)
    requires Inv(s) && CanDo(s, Seal)
    ensures Inv(Do(s, Seal))
  {
    var t := Do(s, Seal);
    assert t.history == s.history && t.restores == s.restores;
  }

  lemma ReplaceInv(s: State, a: Action)
    requires Inv(s) && CanDo(s, a) && (a.EnterRestore? || a.FinishReplace?)
    ensures Inv(Do(s, a))
  {
    if a.FinishReplace? {
      SpawnedInv(s, s.main.key);
    } else if s.restores == [] ||
              (!RestoreRuns(s) && (LastRestore(s).key != s.main.key || LastRestore(s).result.None?)) {
      SpawnedInv(s, s.main.key);
    } else if RestoreRuns(s) && LastRestore(s).key != s.main.key {
      StopToReplaceInv(s);
    } else {
      BackToIdleInv(s);
    }
  }

  lemma SpawnedInv(s: State, key: Key)
    requires Inv(s) && !RestoreRuns(s) && (s.main.EnteringRestore? || s.main.ReplacingRestore?)
    ensures Inv(Spawned(s, key))
  {
    assert Spawned(s, key).history == s.history && Spawned(s, key).checkpoints == s.checkpoints;
  }

  lemma StopToReplaceInv(s: State)
    requires Inv(s) && s.main.EnteringRestore? && RestoreRuns(s)
    ensures Inv(StopRestore(s).(main := ReplacingRestore(s.main.key), locked := true))
  {
    RestoreMovedInv(s, LastRestore(s).(stopped := true));
    assert StopRestore(s).(main := ReplacingRestore(s.main.key), locked := true).history == s.history;
  }

  lemma BackToIdleInv(s: State)
    requires Inv(s) && (s.main.EnteringRestore? || s.main.EnteringCheckpoint?)
    ensures Inv(s.(main := Idle))
  {
    assert s.(main := Idle).history == s.history;
  }

  lemma EnterCheckpointInv(s: State)
    requires Inv(s) && CanDo(s, EnterCheckpoint)
    ensures Inv(Do(s, EnterCheckpoint))
  {
    BackToIdleInv(s);
    var idle := s.(main := Idle);
    if !s.sealed && !CheckpointRuns(s) {
      if s.checkpointAt.None? {
        FirstStampInv(idle);
      } else if s.clock >= s.checkpointAt.value + s.main.every {
        BegunInv(idle, s.main.every);
      }
    }
  }

  lemma FirstStampInv(s: State)
    requires Inv(s) && s.checkpointAt.None?
    ensures Inv(s.(checkpointAt := Some(s.clock)))
  {
    if s.history != [] {
      assert s.history[|s.history| - 1] in s.history;
    }
  }

  lemma BegunInv(s: State, every: nat)
    requires Inv(s) && s.main.Idle? && !CheckpointRuns(s)
    requires s.checkpointAt.Some? && s.clock >= s.checkpointAt.value + every
    ensures Inv(s.(checkpoints := s.checkpoints + [CheckpointJob(Packing, false)],
                   history := s.history + [Span(s.clock, every, None)]))
  {
    SpacedAppended(s.history, Span(s.clock, every, None));
  }

  lemma RestartInv(s: State)
    requires Inv(s)
    ensures Inv(Do(s, Restart))
  {
    SpacedEnded(s);
    var t := Do(s, Restart);
    forall span <- t.history
      ensures SpanFits(span, t.clock)
    {
      if span !in s.history {
        assert s.history[|s.history| - 1] in s.history;
      }
    }
  }

  /** Every step keeps the invariant. */
  lemma StepInv(s: State, a: Action)
    requires Inv(s) && CanDo(s, a)
    ensures Inv(Do(s, a))
  {
    if RestoreAt(s, a) {
      RestoreStepInv(s, a);
    } else if CheckpointAt(s, a) {
      CheckpointStepInv(s, a);
    } else {
      MainStepInv(s, a);
    }
  }

  // ----- runs -----

  /** The states that a run passes through, or None when one of its steps is not enabled. */
  function Run(s: State, actions: seq<Action>): Option<State>
    decreases |actions|
  {
    if actions == [] then Some(s)
    else if CanDo(s, actions[0]) then Run(Do(s, actions[0]), actions[1..])
    else None
  }

  lemma {:induction false} RunInv(s: State, actions: seq<Action>)
    requires Inv(s)
    ensures Run(s, actions).Some? ==> Inv(Run(s, actions).value)
    decreases |actions|
  {
    if actions != [] && CanDo(s, actions[0]) {
      StepInv(s, actions[0]);
      RunInv(Do(s, actions[0]), actions[1..]);
    }
  }

  predicate Reachable(s: State, actions: seq<Action>) {
    Run(Init(), actions) == Some(s)
  }

  /** In every interleaving at most one restore and one checkpoint have not ended. */
  lemma OneJobAtATime(s: State, actions: seq<Action>)
    requires Reachable(s, actions)
    ensures forall i, j | 0 <= i < |s.restores| && 0 <= j < |s.restores| && i != j ::
              s.restores[i].pc.Over? || s.restores[j].pc.Over?
    ensures forall i, j | 0 <= i < |s.checkpoints| && 0 <= j < |s.checkpoints| && i != j ::
              s.checkpoints[i].pc.Closed? || s.checkpoints[j].pc.Closed?
  {
    InitInv();
    RunInv(Init(), actions);
  }

  /** While Save packs and uploads, every restore and every checkpoint has ended and none can begin. */
  lemma SaveRunsAlone(s: State, actions: seq<Action>)
    requires Reachable(s, actions) && s.main.Saving?
    ensures forall j <- s.restores :: j.pc.Over?
    ensures forall j <- s.checkpoints :: j.pc.Closed?
    ensures forall a | CanDo(s, a) && !a.Restart? ::
              |Do(s, a).restores| == |s.restores| && |Do(s, a).checkpoints| == |s.checkpoints|
  {
    InitInv();
    RunInv(Init(), actions);
    forall i | 0 <= i < |s.restores|
      ensures s.restores[i].pc.Over?
    {
    }
    forall i | 0 <= i < |s.checkpoints|
      ensures s.checkpoints[i].pc.Closed?
    {
    }
  }

  lemma SealStays(s: State, a: Action)
    requires s.sealed && CanDo(s, a) && a != Restart
    ensures var t := Do(s, a);
            t.sealed && |t.checkpoints| == |s.checkpoints| && |t.history| == |s.history|
  {
    if RestoreAt(s, a) {
      assert Do(s, a).checkpoints == s.checkpoints && Do(s, a).history == s.history;
    } else if CheckpointAt(s, a) {
      assert |WithCheckpoint(s, NextPc(s, a)).checkpoints| == |s.checkpoints|;
    }
  }

  /** Once Save has sealed checkpoints, none begins in the life of the process. */
  lemma {:induction false} NoCheckpointAfterSeal(s: State, actions: seq<Action>)
    requires s.sealed && Restart !in actions
    ensures var end := Run(s, actions);
            end.Some? ==>
              && end.value.sealed && |end.value.checkpoints| == |s.checkpoints|
              && |end.value.history| == |s.history|
    decreases |actions|
  {
    if actions != [] && CanDo(s, actions[0]) {
      assert actions[0] in actions;
      assert forall a <- actions[1..] :: a in actions;
      SealStays(s, actions[0]);
      NoCheckpointAfterSeal(Do(s, actions[0]), actions[1..]);
    }
  }

  /** Every checkpoint begins at least its interval after the one before it ended, over restarts as well. */
  lemma CheckpointsAreSpaced(s: State, actions: seq<Action>)
    requires Reachable(s, actions)
    ensures SpacedOut(s.history)
  {
    InitInv();
    RunInv(Init(), actions);
  }

  /** An archive is taken as unchanged only if its digest is the last one that the backend acknowledged. */
  lemma SkippedWasAcked(s: State, actions: seq<Action>)
    requires Reachable(s, actions) && Skips(s)
    ensures s.acked == Some(LastCheckpoint(s).pc.sum)
  {
    InitInv();
    RunInv(Init(), actions);
  }

  // ----- checkpoints do happen -----

  /**
   * A call of Checkpoint begins one exactly when it is due: the workspace was restored and used, Save has not sealed,
   * none is running, and the interval is over since the last one ended. The first call only starts the clock.
   */
  lemma DueCheckpointBegins(s: State, every: nat)
    requires Inv(s) && s.main.Idle?
    ensures var called := Do(s, CallCheckpoint(every));
            if !s.restored || !s.started then called == s
            else
              && CanDo(called, EnterCheckpoint)
              && var t := Do(called, EnterCheckpoint);
                 var free := !s.sealed && !CheckpointRuns(s);
                 var due := free && s.checkpointAt.Some? && s.clock >= s.checkpointAt.value + every;
                 && t.main.Idle?
                 && (due ==> CheckpointRuns(t) && LastCheckpoint(t) == CheckpointJob(Packing, false))
                 && |t.checkpoints| == |s.checkpoints| + (if due then 1 else 0)
                 && t.checkpointAt == if free && s.checkpointAt.None? then Some(s.clock) else s.checkpointAt
  {
  }

  const SKIP_END := [CheckpointStamps, CheckpointCloses]

  /** The last steps of every checkpoint stamp its end. */
  lemma StampedEnds(s: State)
    requires CheckpointRuns(s) && LastCheckpoint(s).pc.Stamping? && !s.locked
    ensures Run(s, SKIP_END).Some?
    ensures var t := Run(s, SKIP_END).value;
            && !CheckpointRuns(t) && t.checkpointAt == Some(s.clock)
            && t.acked == s.acked && t.checkpointSum == s.checkpointSum
  {
    var ends: seq<Action> := [CheckpointCloses];
    assert [CheckpointStamps] + ends == SKIP_END && ends + [] == ends;
    RunStep(Do(s, CheckpointStamps), CheckpointCloses, []);
    RunStep(s, CheckpointStamps, ends);
  }

  /** Once the backend has acknowledged it, its digest is remembered. */
  lemma AcknowledgedEnds(s: State, sum: Digest)
    requires CheckpointRuns(s) && LastCheckpoint(s).pc == Storing(sum) && !s.locked
    ensures Run(s, [CheckpointStores] + SKIP_END).Some?
    ensures var t := Run(s, [CheckpointStores] + SKIP_END).value;
            !CheckpointRuns(t) && t.checkpointSum == Some(sum) && t.acked == s.acked && t.checkpointAt == Some(s.clock)
  {
    RunStep(s, CheckpointStores, SKIP_END);
    StampedEnds(Do(s, CheckpointStores));
  }

  /**
   * An archive whose digest is the last one remembered is skipped, with nothing asked of the backend and its end
   * stamped; any other goes on to the backend.
   */
  lemma UnchangedIsSkipped(s: State, sum: Digest)
    requires CheckpointRuns(s) && LastCheckpoint(s).pc == Comparing(sum) && !s.locked
    ensures CanDo(s, CheckpointCompares)
    ensures s.checkpointSum != Some(sum) ==> LastCheckpoint(Do(s, CheckpointCompares)).pc == Asking(sum)
    ensures s.checkpointSum == Some(sum) ==>
              && Run(s, [CheckpointCompares] + SKIP_END).Some?
              && var t := Run(s, [CheckpointCompares] + SKIP_END).value;
                 && !CheckpointRuns(t) && t.acked == s.acked && t.checkpointSum == s.checkpointSum
                 && t.checkpointAt == Some(s.clock)
  {
    if s.checkpointSum == Some(sum) {
      RunStep(s, CheckpointCompares, SKIP_END);
      StampedEnds(Do(s, CheckpointCompares));
    }
  }

  /**
   * A call of Restore begins a job unless one of that key runs or has its result, and ends one of another key first.
   */
  lemma NewRestoreBegins(s: State, key: Key)
    requires Inv(s) && s.main.Idle? && !s.restored
    ensures CanDo(s, CallRestore(key)) && CanDo(Do(s, CallRestore(key)), EnterRestore)
    ensures var t := Do(Do(s, CallRestore(key)), EnterRestore);
            var last := if s.restores == [] then None else Some(LastRestore(s));
            if RestoreRuns(s) && last.value.key != key
            then t.main == ReplacingRestore(key) && |t.restores| == |s.restores| && LastRestore(t).stopped
            else if last.Some? && last.value.key == key && (RestoreRuns(s) || last.value.result.Some?)
            then t == s
            else t.main.Idle? && RestoreRuns(t) && LastRestore(t) == RestoreJob(key, Working, false, None)
    ensures CanDo(s.(main := ReplacingRestore(key)), FinishReplace) ==>
              var t := Do(s.(main := ReplacingRestore(key)), FinishReplace);
              t.main.Idle? && RestoreRuns(t) && LastRestore(t) == RestoreJob(key, Working, false, None)
  {
  }

  // ----- what a commit is of -----

  predicate IsCheckpointStep(a: Action) {
    || a.CheckpointPacks? || a.CheckpointCompares? || a.CheckpointAsks? || a.CheckpointUploads?
    || a.CheckpointCommits? || a.CheckpointStores? || a.CheckpointStamps? || a.CheckpointCloses?
  }

  /** The steps of the checkpoint under way: those since the last one closed, or since the process began. */
  function Trail(actions: seq<Action>): seq<Action> {
    if actions == [] then []
    else
      var last, before := actions[|actions| - 1], Trail(actions[..|actions| - 1]);
      if last.CheckpointCloses? || last.Restart? then []
      else if IsCheckpointStep(last) then before + [last]
      else before
  }

  /** How a checkpoint has come to where it is. */
  predicate CameBy(pc: CheckpointPc, trail: seq<Action>) {
    match pc
    case Packing => trail == []
    case Comparing(sum) => trail == [CheckpointPacks(Some(sum))]
    case Asking(sum) => trail == [CheckpointPacks(Some(sum)), CheckpointCompares]
    case Uploading(sum) => trail == [CheckpointPacks(Some(sum)), CheckpointCompares, CheckpointAsks(true)]
    case Committing(sum) =>
      trail == [CheckpointPacks(Some(sum)), CheckpointCompares, CheckpointAsks(true), CheckpointUploads(true)]
    case Storing(sum) =>
      trail == [CheckpointPacks(Some(sum)), CheckpointCompares, CheckpointAsks(true), CheckpointUploads(true),
                CheckpointCommits(true)]
    case Closed => trail == []
    case _ => true
  }

  predicate TrailFits(s: State, trail: seq<Action>) {
    if s.checkpoints == [] then trail == [] else CameBy(LastCheckpoint(s).pc, trail)
  }

  lemma OwnStepFits(s: State, a: Action, trail: seq<Action>)
    requires CheckpointAt(s, a) && CameBy(LastCheckpoint(s).pc, trail)
    ensures CameBy(NextPc(s, a), if a.CheckpointCloses? then [] else trail + [a])
  {
  }

  /** Other steps leave the last checkpoint where it is, or begin one after it has closed. */
  lemma OthersLeaveCheckpoint(s: State, a: Action)
    requires CanDo(s, a) && !CheckpointAt(s, a) && !a.Restart?
    ensures var t := Do(s, a);
            || (t.checkpoints == [] && s.checkpoints == [])
            || (t.checkpoints != [] && s.checkpoints != [] && LastCheckpoint(t).pc == LastCheckpoint(s).pc)
            || (t.checkpoints != [] && !CheckpointRuns(s) && LastCheckpoint(t).pc.Packing?)
    ensures !IsCheckpointStep(a)
  {
    if RestoreAt(s, a) {
      assert RestoreDo(s, a).checkpoints == s.checkpoints;
    }
  }

  lemma {:induction false} TrailKept(actions: seq<Action>, s: State)
    requires Run(Init(), actions) == Some(s)
    ensures TrailFits(s, Trail(actions))
    decreases |actions|
  {
    if actions != [] {
      var n := |actions| - 1;
      var before := RunLast(Init(), actions);
      TrailKept(actions[..n], before);
      OneMoreStep(before, actions[n], Trail(actions[..n]));
    }
  }

  lemma OneMoreStep(s: State, a: Action, trail: seq<Action>)
    requires CanDo(s, a) && TrailFits(s, trail)
    ensures TrailFits(Do(s, a), if a.CheckpointCloses? || a.Restart? then []
                                else if IsCheckpointStep(a) then trail + [a] else trail)
  {
    if CheckpointAt(s, a) {
      OwnStepFits(s, a, trail);
      assert LastCheckpoint(WithCheckpoint(s, NextPc(s, a))).pc == NextPc(s, a);
    } else if !a.Restart? {
      OthersLeaveCheckpoint(s, a);
    }
  }

  /** The last step of a run. */
  lemma {:induction false} RunLast(s: State, actions: seq<Action>) returns (before: State)
    requires actions != [] && Run(s, actions).Some?
    ensures var n := |actions| - 1;
            && Run(s, actions[..n]) == Some(before) && CanDo(before, actions[n])
            && Run(s, actions) == Some(Do(before, actions[n]))
    decreases |actions|
  {
    var n := |actions| - 1;
    if n == 0 {
      before := s;
      assert actions[1..] == [] && actions[..0] == [];
    } else {
      before := RunLast(Do(s, actions[0]), actions[1..]);
      assert actions[1..][..n - 1] == actions[..n][1..] && actions[1..][n - 1] == actions[n];
    }
  }

  /**
   * What the backend is asked to commit was packed, granted and uploaded in this very checkpoint, and only what it has
   * acknowledged is remembered.
   */
  lemma CommitIsOfUploaded(s: State, actions: seq<Action>, sum: Digest)
    requires Reachable(s, actions) && CheckpointRuns(s)
    ensures LastCheckpoint(s).pc == Committing(sum) ==>
              Trail(actions) == [CheckpointPacks(Some(sum)), CheckpointCompares, CheckpointAsks(true),
                                 CheckpointUploads(true)]
    ensures LastCheckpoint(s).pc == Storing(sum) ==>
              Trail(actions) == [CheckpointPacks(Some(sum)), CheckpointCompares, CheckpointAsks(true),
                                 CheckpointUploads(true), CheckpointCommits(true)]
  {
    TrailKept(actions, s);
  }

  // ----- waiting ends -----

  /** How many of its own steps a job still takes at most. */
  function RestoreRank(s: State): nat {
    if !RestoreRuns(s) then 0
    else
      match LastRestore(s).pc
      case Working => 3
      case Past(_) => 2
      case _ => 1
  }

  function PcRank(pc: CheckpointPc): nat {
    match pc
    case Packing => 8
    case Comparing(_) => 7
    case Asking(_) => 6
    case Uploading(_) => 5
    case Committing(_) => 4
    case Storing(_) => 3
    case Stamping => 2
    case Closing => 1
    case Closed => 0
  }

  function CheckpointRank(s: State): nat {
    if s.checkpoints == [] then 0 else PcRank(LastCheckpoint(s).pc)
  }

  /** The job that the main loop waits for, and a step that brings its end nearer. */
  function NextOfJob(s: State): Action {
    if s.main.SaveStopsCheckpoint? && CheckpointRuns(s) then
      match LastCheckpoint(s).pc
      case Packing => CheckpointPacks(None)
      case Comparing(_) => CheckpointCompares
      case Asking(_) => CheckpointAsks(false)
      case Uploading(_) => CheckpointUploads(false)
      case Committing(_) => CheckpointCommits(false)
      case Storing(_) => CheckpointStores
      case Stamping => CheckpointStamps
      case _ => CheckpointCloses
    else if RestoreRuns(s) && LastRestore(s).pc.Working? then RestoreWorks(false, false)
    else if RestoreRuns(s) && LastRestore(s).pc.Past? then RestoreMarks(false)
    else RestoreCloses
  }

  predicate Waiting(s: State) {
    || ((s.main.ReplacingRestore? || s.main.SaveStopsRestore?) && RestoreRuns(s))
    || (s.main.SaveStopsCheckpoint? && CheckpointRuns(s))
  }

  lemma RestoreStepsEnd(s: State, a: Action)
    requires RestoreAt(s, a)
    ensures CanDo(s, a) && RestoreRank(Do(s, a)) < RestoreRank(s)
  {
  }

  lemma CheckpointStepsEnd(s: State, a: Action)
    requires CheckpointAt(s, a)
    ensures CanDo(s, a) && CheckpointRank(Do(s, a)) < CheckpointRank(s)
  {
    NextPcIsNearer(s, a);
    assert LastCheckpoint(WithCheckpoint(s, NextPc(s, a))).pc == NextPc(s, a);
  }

  lemma NextPcIsNearer(s: State, a: Action)
    requires CheckpointAt(s, a)
    ensures PcRank(NextPc(s, a)) < PcRank(LastCheckpoint(s).pc)
  {
  }

  lemma WaitingHasAStep(s: State)
    requires LockedOnlyToReplace(s) && Waiting(s)
    ensures RestoreAt(s, NextOfJob(s)) || CheckpointAt(s, NextOfJob(s))
  {
  }

  lemma NotWaitingGoesOn(s: State)
    requires LockedOnlyToReplace(s) && !Waiting(s)
    ensures CanDo(s, FinishReplace) || CanDo(s, RestoreStopped) || CanDo(s, CheckpointStopped) || CanDo(s, Seal)
            || CanDo(s, EnterRestore) || CanDo(s, EnterCheckpoint) || s.main.Idle? || s.main.Saving?
  {
  }

  /**
   * The main loop never waits for a job that waits for it: whenever it waits, holding the mutex or not, the job has a
   * step, every step of the job brings its end nearer, and once it has ended the main loop goes on.
   */
  lemma NoDeadlock(s: State, actions: seq<Action>)
    requires Reachable(s, actions)
    ensures Waiting(s) ==> CanDo(s, NextOfJob(s))
    ensures forall a | RestoreAt(s, a) :: CanDo(s, a) && RestoreRank(Do(s, a)) < RestoreRank(s)
    ensures forall a | CheckpointAt(s, a) :: CanDo(s, a) && CheckpointRank(Do(s, a)) < CheckpointRank(s)
    ensures !Waiting(s) ==> CanDo(s, FinishReplace) || CanDo(s, RestoreStopped) || CanDo(s, CheckpointStopped)
                            || CanDo(s, Seal) || CanDo(s, EnterRestore) || CanDo(s, EnterCheckpoint)
                            || s.main.Idle? || s.main.Saving?
  {
    InitInv();
    RunInv(Init(), actions);
    forall a | RestoreAt(s, a)
      ensures CanDo(s, a) && RestoreRank(Do(s, a)) < RestoreRank(s)
    {
      RestoreStepsEnd(s, a);
    }
    forall a | CheckpointAt(s, a)
      ensures CanDo(s, a) && CheckpointRank(Do(s, a)) < CheckpointRank(s)
    {
      CheckpointStepsEnd(s, a);
    }
    if Waiting(s) {
      WaitingHasAStep(s);
    } else {
      NotWaitingGoesOn(s);
    }
  }

  // ----- what a stop still lets happen -----

  /** A step that neither begins a restore nor is one of the last restore changes nothing that it says. */
  predicate KeepsRestore(s: State, t: State) {
    && s.restores != [] && |t.restores| == |s.restores| && t.restored == s.restored
    && LastRestore(t).pc == LastRestore(s).pc && LastRestore(t).result == LastRestore(s).result
    && (LastRestore(s).stopped ==> LastRestore(t).stopped)
  }

  lemma OtherStep(s: State, a: Action)
    requires s.restores != [] && CanDo(s, a) && !a.Restart? && !RestoreAt(s, a) && |Do(s, a).restores| <= |s.restores|
    ensures KeepsRestore(s, Do(s, a)) && !a.RestoreMarks?
  {
    if CheckpointAt(s, a) {
      CheckpointKeepsRestores(s, a);
    }
  }

  lemma CheckpointKeepsRestores(s: State, a: Action)
    requires CheckpointAt(s, a)
    ensures CheckpointDo(s, a).restores == s.restores && CheckpointDo(s, a).restored == s.restored
  {
  }

  lemma RestoresGrow(s: State, a: Action)
    requires CanDo(s, a) && !a.Restart?
    ensures |s.restores| <= |Do(s, a).restores|
  {
    if RestoreAt(s, a) {
      OwnStep(s, a);
    } else if CheckpointAt(s, a) {
      CheckpointKeepsRestores(s, a);
    } else {
      MainRestoresGrow(s, a);
    }
  }

  lemma MainRestoresGrow(s: State, a: Action)
    requires CanDo(s, a) && !a.Restart? && !RestoreAt(s, a) && !CheckpointAt(s, a)
    ensures |s.restores| <= |Do(s, a).restores|
  {
    if a.CallSave? {
      assert s.restores != [] ==> |StopRestore(s).restores| == |s.restores|;
    } else if !a.EnterRestore? && !a.FinishReplace? {
      assert Do(s, a).restores == s.restores;
    }
  }

  /** What the last restore does in a step of its own. */
  lemma OwnStep(s: State, a: Action)
    requires RestoreAt(s, a)
    ensures var t := Do(s, a);
            && |t.restores| == |s.restores| && LastRestore(t).stopped == LastRestore(s).stopped
            && match LastRestore(s).pc
               case Working =>
                 !a.RestoreMarks? && t.restored == s.restored && LastRestore(t).result == LastRestore(s).result &&
                 (LastRestore(s).stopped ==> LastRestore(t).pc.Over?)
               case Past(ok) =>
                 a.RestoreMarks? && LastRestore(t).pc == Marked(ok && a.written) &&
                 t.restored == (s.restored || (ok && a.written))
               case Marked(ok) =>
                 !a.RestoreMarks? && LastRestore(t).pc.Over? && t.restored == s.restored &&
                 LastRestore(t).result == Some(ok)
               case Over => true
  {
  }

  /** Without a new restore nothing more is heard of one that is over. */
  lemma {:induction false} NothingAfterOver(s: State, actions: seq<Action>)
    requires s.restores != [] && !RestoreRuns(s) && Restart !in actions && Run(s, actions).Some?
    requires |Run(s, actions).value.restores| == |s.restores|
    ensures var t := Run(s, actions).value;
            t.restored == s.restored && LastRestore(t).result == LastRestore(s).result && RestoreMarks(true) !in actions
    decreases |actions|
  {
    if actions != [] {
      var a, next := actions[0], Do(s, actions[0]);
      ActionSplit(actions);
      RestoresOnlyGrow(next, actions[1..]);
      OtherStep(s, a);
      NothingAfterOver(next, actions[1..]);
    }
  }

  lemma ActionSplit(actions: seq<Action>)
    requires actions != []
    ensures forall b <- actions :: b == actions[0] || b in actions[1..]
    ensures forall b <- actions[1..] :: b in actions
    ensures actions[0] in actions
  {
  }

  lemma {:induction false} RestoresOnlyGrow(s: State, actions: seq<Action>)
    requires Restart !in actions && Run(s, actions).Some?
    ensures |s.restores| <= |Run(s, actions).value.restores|
    decreases |actions|
  {
    if actions != [] {
      ActionSplit(actions);
      RestoresGrow(s, actions[0]);
      RestoresOnlyGrow(Do(s, actions[0]), actions[1..]);
    }
  }

  /** The last restore runs in s, and has ended by the end of the run with no other begun. */
  predicate RestoreEnds(s: State, actions: seq<Action>) {
    && RestoreRuns(s) && Restart !in actions && Run(s, actions).Some?
    && |Run(s, actions).value.restores| == |s.restores| && !RestoreRuns(Run(s, actions).value)
  }

  /**
   * How a restore ends from any point, in any interleaving: stopped while it works, without its marker and without a
   * result; past its check, with its marker exactly when its work and the writing succeed, stopped or not.
   */
  lemma {:induction false} HowRestoreEnds(s: State, actions: seq<Action>)
    requires RestoreEnds(s, actions)
    ensures var t := Run(s, actions).value;
            match LastRestore(s).pc
            case Working =>
              LastRestore(s).stopped ==> t.restored == s.restored && LastRestore(t).result == LastRestore(s).result
            case Past(ok) =>
              var written := ok && RestoreMarks(true) in actions;
              t.restored == (s.restored || written) && LastRestore(t).result == Some(written)
            case Marked(ok) =>
              t.restored == s.restored && LastRestore(t).result == Some(ok) && RestoreMarks(true) !in actions
            case Over => true
    decreases |actions|
  {
    var a, rest, next := actions[0], actions[1..], Do(s, actions[0]);
    ActionSplit(actions);
    RestoresOnlyGrow(next, rest);
    RestoresGrow(s, a);
    if RestoreAt(s, a) {
      OwnStep(s, a);
    } else {
      OtherStep(s, a);
    }
    if RestoreRuns(next) {
      HowRestoreEnds(next, rest);
    } else {
      NothingAfterOver(next, rest);
    }
  }

  /**
   * A stopped restore still writes its marker exactly when it was past its check, with its work done, as it was
   * stopped, and the writing succeeds.
   */
  lemma StoppedRestoreMarks(s: State, actions: seq<Action>)
    requires RestoreEnds(s, actions) && LastRestore(s).stopped && !s.restored && !LastRestore(s).pc.Marked?
    ensures var t, pc := Run(s, actions).value, LastRestore(s).pc;
            && (t.restored <==> pc.Past? && pc.ok && RestoreMarks(true) in actions)
            && (t.restored ==> LastRestore(t).result == Some(true))
  {
    HowRestoreEnds(s, actions);
  }

  /** Save stops the last restore, and the marker is written all the same. */
  predicate StoppedTooLate(t: State) {
    && t.main.SaveStopsRestore? && t.restored
    && t.restores != [] && LastRestore(t).stopped && LastRestore(t).result == Some(true)
  }

  const LATE_STOP := [CallSave, RestoreMarks(true), RestoreCloses]

  lemma MarkedAllTheSame(s: State)
    requires s.main.SaveStopsRestore? && RestoreRuns(s) && LastRestore(s).pc == Past(true) && LastRestore(s).stopped
    ensures var marks := [RestoreMarks(true), RestoreCloses];
            Run(s, marks).Some? && StoppedTooLate(Run(s, marks).value)
  {
    var ends: seq<Action> := [RestoreCloses];
    assert [RestoreMarks(true)] + ends == [RestoreMarks(true), RestoreCloses] && ends + [] == ends;
    RunStep(Do(s, RestoreMarks(true)), RestoreCloses, []);
    RunStep(s, RestoreMarks(true), ends);
  }

  /** So it goes whenever Save is called while the restore is past its check. */
  lemma LateStop(s: State)
    requires s.main.Idle? && !s.locked && RestoreRuns(s) && LastRestore(s).pc == Past(true)
    ensures Run(s, LATE_STOP).Some? && StoppedTooLate(Run(s, LATE_STOP).value)
  {
    var marks := [RestoreMarks(true), RestoreCloses];
    MarkedAllTheSame(Do(s, CallSave));
    assert [CallSave] + marks == LATE_STOP;
    RunStep(s, CallSave, marks);
  }

  lemma StopComesTooLate()
    ensures exists actions :: Run(Init(), actions).Some? && StoppedTooLate(Run(Init(), actions).value)
  {
    var key: Key := "archive";
    var s1 := Do(Init(), CallRestore(key));
    var s2 := Do(s1, EnterRestore);
    LateStop(Do(s2, RestoreWorks(true, false)));
    var last := [RestoreWorks(true, false)] + LATE_STOP;
    RunStep(s2, RestoreWorks(true, false), LATE_STOP);
    RunStep(s1, EnterRestore, last);
    RunStep(Init(), CallRestore(key), [EnterRestore] + last);
  }

  lemma RunStep(s: State, a: Action, rest: seq<Action>)
    requires CanDo(s, a)
    ensures Run(s, [a] + rest) == Run(Do(s, a), rest)
  {
    assert ([a] + rest)[1..] == rest;
  }
}
