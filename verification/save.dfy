/**
 * Saving the workspace on termination: the attempts, their markers and their end (Save, saveFailed, save, retryLater).
 */
module Save {
  import opened Wrappers

  type Bytes = seq<bv8>

  /** The digest of some content. Two digests are equal only for equal contents. */
  datatype Sum = Sum(content: Bytes)

  /** An error, and whether it ends the saving at once: marked final, or the state being too large. */
  datatype Error = Error(message: string, final: bool, tooLarge: bool)

  datatype Observed =
    | Nothing
    | Saving(lastError: Option<string>)
    | Saved(sum: Sum, size: int)
    | Skipped
    | SaveFailed(message: string)

  predicate Terminal(obs: Observed) {
    obs.Saved? || obs.Skipped? || obs.SaveFailed?
  }

  // ----- the pause between uploads -----

  function Pow2(n: nat): (p: nat)
    ensures p >= 1
  {
    if n == 0 then 1 else 2 * Pow2(n - 1)
  }

  function Min(a: int, b: int): int {
    if a < b then a else b
  }

  /** The pause after n failures: the base doubled n times, but no more than the cap. */
  function Pause(base: nat, n: nat, cap: nat): nat {
    Min(base * Pow2(n), cap)
  }

  /** The doubling loop of retryLater, which stops once the cap is reached. */
  method RetryDelay(base: nat, fails: nat, cap: nat) returns (delay: nat)
    ensures delay == Pause(base, fails, cap)
  {
    delay := base;
    var i := 0;
    while i < fails && delay < cap
      invariant 0 <= i <= fails
      invariant delay == base * Pow2(i)
    {
      delay := delay * 2;
      i := i + 1;
    }
    if i < fails {
      PowGrows(base, i, fails);
    }
    delay := Min(delay, cap);
  }

  lemma {:induction false} PowGrows(base: nat, i: nat, n: nat)
    requires i <= n
    ensures base * Pow2(i) <= base * Pow2(n)
  {
    if i < n {
      PowGrows(base, i, n - 1);
      assert base * Pow2(n) == 2 * (base * Pow2(n - 1));
    }
  }

  /** Pauses never get shorter, and once at the cap they stay there. */
  lemma PauseGrows(base: nat, m: nat, n: nat, cap: nat)
    requires m <= n
    ensures Pause(base, m, cap) <= Pause(base, n, cap) <= cap
  {
    PowGrows(base, m, n);
  }

  // ----- one call -----

  /** What one call meets: the clock at the points where it is read, the outcomes of packing and of the upload. */
  datatype Call = Call(
    asked: bool,
    stopError: Option<Error>,
    hasRoot: bool,
    begin: nat,
    check: nat,
    uploaded: nat,
    end: nat,
    pack: Result<Bytes, Error>,
    packWithoutVenv: Result<Bytes, Error>,
    upload: Option<Error>)

  ghost predicate ValidCall(c: Call) {
    c.begin <= c.check <= c.uploaded <= c.end
  }

  /** The archive that packing makes: without the virtual environment only when it is too large with it. */
  function PackResult(c: Call): Result<Bytes, Error> {
    if c.pack.Failure? && c.pack.error.tooLarge then c.packWithoutVenv else c.pack
  }

  const NANOS_PER_MILLI := 1_000_000

  // ----- the whole state, and what a call makes of it -----

  datatype Config = Config(base: nat, cap: nat, window: nat)

  datatype State = State(
    saved: Option<(Sum, int)>,
    skipped: bool,
    failed: Option<string>,
    startedMillis: Option<nat>,
    restoredMarker: bool,
    containerStarted: bool,
    archive: Option<Bytes>,
    packedMarker: Option<(Sum, int)>,
    uploadFails: nat,
    uploadError: Option<Error>,
    nextUpload: nat)
  {
    /** At most one outcome marker exists, and a packed marker beside an archive tells its digest and size. */
    ghost predicate Valid() {
      && (saved.Some? ==> !skipped && failed.None?)
      && (skipped ==> failed.None?)
      && (packedMarker.Some? && archive.Some? && packedMarker.value.1 == |archive.value| ==>
            packedMarker.value.0 == Sum(archive.value))
    }

    /** What the markers say. */
    function Outcome(): (obs: Observed)
      ensures obs == Nothing || Terminal(obs)
    {
      if saved.Some? then Saved(saved.value.0, saved.value.1)
      else if skipped then Skipped
      else if failed.Some? then SaveFailed(failed.value)
      else Nothing
    }

    predicate Packable() {
      restoredMarker && containerStarted
    }

    /** packed: the archive left by an earlier attempt, if it still has the size that its marker tells. */
    function Packed(): Option<(Sum, int)> {
      if packedMarker.Some? && archive.Some? && |archive.value| == packedMarker.value.1 then packedMarker else None
    }

    /** When the saving began, as the call reads or notes it. */
    function Began(c: Call): nat {
      if startedMillis.Some? then startedMillis.value * NANOS_PER_MILLI else c.begin
    }

    /** An upload that failed keeps the next one waiting. */
    predicate Paused(now: nat) {
      uploadError.Some? && now < nextUpload
    }

    /**
     * The call is about to save: it is asked to, no earlier one came to an end with it, and there is something to save.
     */
    predicate Open(c: Call) {
      c.asked && Outcome() == Nothing && Packable()
    }

    /** The call makes an attempt. */
    predicate Tries(c: Call) {
      Open(c) && c.stopError.None? && c.hasRoot && !Paused(c.check)
    }

    /** The archive that an attempt would send, or why there is none. */
    function ToSend(c: Call): Result<Bytes, Error> {
      if Packed().Some? then Success(archive.value) else PackResult(c)
    }

    /** What keeps the call from saving, if anything does. */
    function Trouble(c: Call): Option<Error> {
      if c.stopError.Some? then c.stopError
      else if !c.hasRoot then Some(NO_ROOT)
      else if Paused(c.check) then uploadError
      else if ToSend(c).Failure? then Some(ToSend(c).error)
      else c.upload
    }

    /** The error ends the saving, at the latest when the save window is over. */
    predicate Ends(c: Call, error: Error, window: nat) {
      error.final || error.tooLarge || c.end - Began(c) >= window
    }

    /** The call leaves the saving to a later one. */
    predicate StaysOpen(c: Call, window: nat) {
      Open(c) && Trouble(c).Some? && !Ends(c, Trouble(c).value, window)
    }

    function Answer(c: Call, window: nat): Observed {
      if !c.asked then Nothing
      else if Outcome() != Nothing then Outcome()
      else if !Packable() then Skipped
      else
        match Trouble(c)
        case None => Saved(Sum(ToSend(c).value), |ToSend(c).value|)
        case Some(error) => if Ends(c, error, window) then SaveFailed(error.message) else Saving(Some(error.message))
    }

    /** What the call sends. */
    function Sent(c: Call): seq<Bytes> {
      if Tries(c) && ToSend(c).Success? then [ToSend(c).value] else []
    }

    /** How often the call packs the workspace. */
    function Packs(c: Call): nat {
      if !Tries(c) || Packed().Some? then 0 else if c.pack.Failure? && c.pack.error.tooLarge then 2 else 1
    }

    /** What packing leaves, when an earlier attempt has not packed already. */
    function PackedNow(c: Call): State {
      if Packed().Some? then this
      else
        match PackResult(c)
        case Failure(_) => this.(archive := None)
        case Success(bytes) => this.(archive := Some(bytes), packedMarker := Some((Sum(bytes), |bytes|)))
    }

    /** What packing and a failed upload leave. */
    function Attempted(c: Call, config: Config): State {
      if ToSend(c).Failure? || c.upload.None? then PackedNow(c)
      else
        PackedNow(c).(uploadFails := uploadFails + 1, uploadError := c.upload,
                      nextUpload := c.uploaded + Pause(config.base, uploadFails, config.cap))
    }

    function Begun(c: Call): State {
      this.(startedMillis := Some(if startedMillis.Some? then startedMillis.value else c.begin / NANOS_PER_MILLI))
    }

    function After(c: Call, config: Config): State {
      if !c.asked || Outcome() != Nothing then this
      else if !Packable() then this.(skipped := true)
      else
        var tried := if Tries(c) then Begun(c).Attempted(c, config) else Begun(c);
        match Trouble(c)
        case None => tried.Cleared().(saved := Some((Sum(ToSend(c).value), |ToSend(c).value|)))
        case Some(error) => if Ends(c, error, config.window) then tried.Dropped(error) else tried
    }

    function Cleared(): State {
      this.(archive := None, packedMarker := None)
    }

    function Dropped(error: Error): State {
      Cleared().(failed := Some(error.message))
    }

    /** The agent starts anew: what was only in memory is gone. */
    function Restarted(): State {
      this.(uploadFails := 0, uploadError := None, nextUpload := 0)
    }
  }

  const NO_ROOT := Error("no /workspace volume to save state from", true, false)

  class Manager {
    const base: nat
    const cap: nat
    const window: nat

    // On disk, kept over restarts of the agent.
    var saved: Option<(Sum, int)>
    var skipped: bool
    var failed: Option<string>
    var startedMillis: Option<nat>
    var restoredMarker: bool
    var containerStarted: bool
    var archive: Option<Bytes>
    var packedMarker: Option<(Sum, int)>

    // In memory.
    var uploadFails: nat
    var uploadError: Option<Error>
    var nextUpload: nat

    // What an observer has seen: archives sent, and how often the workspace was packed.
    ghost var uploads: seq<Bytes>
    ghost var packs: nat

    constructor (base: nat, cap: nat, window: nat, restored: bool, started: bool)
      ensures Valid() && OutcomeSeen() == Nothing && uploads == [] && packs == 0
      ensures this.base == base && this.cap == cap && this.window == window
      ensures restoredMarker == restored && containerStarted == started && startedMillis.None? && uploadError.None?
    {
      this.base, this.cap, this.window := base, cap, window;
      saved, skipped, failed, startedMillis := None, false, None, None;
      restoredMarker, containerStarted := restored, started;
      archive, packedMarker := None, None;
      uploadFails, uploadError, nextUpload := 0, None, 0;
      uploads, packs := [], 0;
    }

    function View(): State
      reads this
    {
      State(saved, skipped, failed, startedMillis, restoredMarker, containerStarted, archive, packedMarker,
            uploadFails, uploadError, nextUpload)
    }

    ghost predicate Valid()
      reads this
    {
      View().Valid()
    }

    function OutcomeSeen(): (obs: Observed)
      reads this
      ensures obs == Nothing || Terminal(obs)
    {
      View().Outcome()
    }

    const config: Config := Config(base, cap, window)

    /** The agent starts anew. */
    method Restart()
      requires Valid()
      modifies this`uploadFails, this`uploadError, this`nextUpload
      ensures Valid() && View() == old(View()).Restarted() && OutcomeSeen() == old(OutcomeSeen())
    {
      uploadFails, uploadError, nextUpload := 0, None, 0;
    }

    /** saveStarted: noted once, to the millisecond. */
    method SaveStarted(c: Call) returns (started: nat)
      requires Valid()
      modifies this`startedMillis
      ensures Valid() && View() == old(View()).Begun(c) && started == old(View()).Began(c)
    {
      if startedMillis.Some? {
        return startedMillis.value * NANOS_PER_MILLI;
      }
      startedMillis := Some(c.begin / NANOS_PER_MILLI);
      started := c.begin;
    }

    method DropArchive()
      requires Valid()
      modifies this`archive, this`packedMarker
      ensures Valid() && View() == old(View()).Cleared()
    {
      archive, packedMarker := None, None;
    }

    /** saveFailed: an error that ends the saving becomes its outcome, any other leaves it for the next call. */
    method Fail(started: nat, error: Error, now: nat) returns (obs: Observed)
      requires Valid() && OutcomeSeen() == Nothing
      modifies this`archive, this`packedMarker, this`failed
      ensures Valid()
      ensures var ends := error.final || error.tooLarge || now - started >= window;
              && obs == (if ends then SaveFailed(error.message) else Saving(Some(error.message)))
              && View() == if ends then old(View()).Dropped(error) else old(View())
    {
      if error.final || error.tooLarge || now - started >= window {
        DropArchive();
        failed := Some(error.message);
        return SaveFailed(error.message);
      }
      obs := Saving(Some(error.message));
    }

    /** pack: once as asked, and once more without the virtual environment when that was too large. */
    method PackArchive(c: Call) returns (result: Result<(Sum, int), Error>)
      requires Valid() && View().Packed().None?
      modifies this`archive, this`packedMarker, this`packs
      ensures Valid() && View() == old(View()).PackedNow(c)
      ensures packs == old(packs) + if c.pack.Failure? && c.pack.error.tooLarge then 2 else 1
      ensures match PackResult(c)
              case Failure(error) => result == Failure(error)
              case Success(bytes) => result == Success((Sum(bytes), |bytes|)) && archive == Some(bytes)
    {
      packs := packs + 1;
      var attempt := c.pack;
      if attempt.Failure? && attempt.error.tooLarge {
        packs := packs + 1;
        attempt := c.packWithoutVenv;
      }
      match attempt {
        case Failure(error) =>
          archive := None;
          result := Failure(error);
        case Success(bytes) =>
          archive := Some(bytes);
          packedMarker := Some((Sum(bytes), |bytes|));
          result := Success((Sum(bytes), |bytes|));
      }
    }

    method RetryLater(error: Error, now: nat)
      requires Valid()
      modifies this`uploadFails, this`uploadError, this`nextUpload
      ensures Valid()
      ensures View() == old(View()).(uploadFails := old(uploadFails) + 1, uploadError := Some(error),
                                     nextUpload := now + Pause(base, old(uploadFails), cap))
    {
      var delay := RetryDelay(base, uploadFails, cap);
      uploadFails := uploadFails + 1;
      uploadError := Some(error);
      nextUpload := now + delay;
    }

    /**
     * save: one attempt to pack, if that is still to do, and to upload. It succeeds exactly when there is an archive
     * and its upload does, and tells the digest and the size of the bytes sent; else it tells which of the two failed.
     */
    method Attempt(c: Call) returns (result: Result<(Sum, int), Error>)
      requires Valid() && OutcomeSeen() == Nothing
      modifies this`archive, this`packedMarker, this`packs, this`uploads, this`uploadFails, this`uploadError
      modifies this`nextUpload
      ensures Valid()
      ensures match old(View()).ToSend(c)
              case Failure(error) => result == Failure(error) && uploads == old(uploads)
              case Success(bytes) =>
                && uploads == old(uploads) + [bytes]
                && result == if c.upload.Some? then Failure(c.upload.value) else Success((Sum(bytes), |bytes|))
      ensures View() ==
              if result.Success? then old(View()).Attempted(c, config).Cleared() else old(View()).Attempted(c, config)
      ensures packs == old(packs) + if old(View()).Packed().Some? then 0
                                    else if c.pack.Failure? && c.pack.error.tooLarge then 2 else 1
    {
      var packed := View().Packed();
      var sum, size;
      if packed.Some? {
        sum, size := packed.value.0, packed.value.1;
      } else {
        var made := PackArchive(c);
        if made.Failure? {
          return Failure(made.error);
        }
        sum, size := made.value.0, made.value.1;
      }
      uploads := uploads + [archive.value];
      if c.upload.Some? {
        RetryLater(c.upload.value, c.uploaded);
        return Failure(c.upload.value);
      }
      DropArchive();
      result := Success((sum, size));
    }

    /**
     * Save. What is reported, what is left on disk and in memory, what is sent and how often the workspace is packed
     * are all determined: an outcome, once its marker exists, is the answer for ever; a call that has something to save
     * ends with it saved exactly when nothing keeps it from that, and leaves it to a later call exactly when what does
     * so is passing and the save window is open.
     */
    method Save(c: Call) returns (obs: Observed)
      requires Valid() && ValidCall(c)
      modifies this
      ensures Valid()
      ensures obs == old(View()).Answer(c, window)
      ensures View() == old(View()).After(c, config)
      ensures uploads == old(uploads) + old(View()).Sent(c) && packs == old(packs) + old(View()).Packs(c)
      ensures old(View()).Open(c) ==> (obs.Saved? <==> old(View()).Trouble(c).None?)
      ensures obs.Saving? <==> old(View()).StaysOpen(c, window)
      ensures c.asked ==> OutcomeSeen() == if Terminal(obs) then obs else Nothing
      ensures old(OutcomeSeen()) != Nothing ==>
                OutcomeSeen() == old(OutcomeSeen()) && uploads == old(uploads) && packs == old(packs)
    {
      if !c.asked {
        return Nothing;
      }
      obs := OutcomeSeen();
      if obs != Nothing {
        return;
      }
      if !View().Packable() {
        skipped := true;
        return Skipped;
      }
      obs := SaveOpen(c);
    }

    /** Save, once it is known that there is something to save and that no call has come to an end with it. */
    method SaveOpen(c: Call) returns (obs: Observed)
      requires Valid() && View().Open(c)
      modifies this
      ensures Valid()
      ensures obs == old(View()).Answer(c, window)
      ensures View() == old(View()).After(c, config)
      ensures uploads == old(uploads) + old(View()).Sent(c) && packs == old(packs) + old(View()).Packs(c)
    {
      var started := SaveStarted(c);
      if c.stopError.Some? {
        obs := Fail(started, c.stopError.value, c.end);
        return;
      }
      if !c.hasRoot {
        obs := Fail(started, NO_ROOT, c.end);
        return;
      }
      if uploadError.Some? && c.check < nextUpload {
        obs := Fail(started, uploadError.value, c.end);
        return;
      }
      var result := Attempt(c);
      match result {
        case Failure(error) => obs := Fail(started, error, c.end);
        case Success(value) =>
          saved := Some(value);
          obs := Saved(value.0, value.1);
      }
    }
  }

  /**
   * What the contract of Save comes to. An outcome is repeated without packing or sending anything; whatever ends with
   * an outcome has its marker; a call that ends when the save window is over has one; what is reported as saved was
   * sent in that very call; a workspace that was never restored or used is skipped; an archive left by an earlier
   * attempt is sent without packing again; and a failed upload keeps the archive and sets the pause.
   */
  lemma SaveMeaning(s: State, c: Call, config: Config)
    requires s.Valid() && ValidCall(c)
    ensures s.After(c, config).Valid()
    ensures !c.asked ==> s.After(c, config) == s
    ensures c.asked && s.Outcome() != Nothing ==>
              s.Answer(c, config.window) == s.Outcome() && s.After(c, config) == s && s.Sent(c) == [] && s.Packs(c) == 0
    ensures c.asked && s.Outcome() == Nothing && !(s.restoredMarker && s.containerStarted) ==>
              && s.Answer(c, config.window) == Skipped && s.After(c, config) == s.(skipped := true)
              && s.Sent(c) == [] && s.Packs(c) == 0
    ensures c.asked ==>
              var obs := s.Answer(c, config.window);
              s.After(c, config).Outcome() == if Terminal(obs) then obs else Nothing
    ensures s.Open(c) && c.end >= config.window + s.Began(c) ==> Terminal(s.Answer(c, config.window))
    ensures s.Open(c) && s.Answer(c, config.window).Saved? ==>
              exists bytes ::
                && s.Sent(c) == [bytes] && c.upload.None?
                && s.Answer(c, config.window) == Saved(Sum(bytes), |bytes|)
    ensures s.Sent(c) != [] && s.Packed().Some? ==> Some(s.Sent(c)[0]) == s.archive && s.Packs(c) == 0
    ensures s.Sent(c) != [] && c.upload.Some? ==>
              var t := s.After(c, config);
              && t.uploadFails == s.uploadFails + 1
              && t.nextUpload == c.uploaded + Pause(config.base, s.uploadFails, config.cap)
              && (s.StaysOpen(c, config.window) ==> t.archive == Some(s.Sent(c)[0]) && t.Packed().Some?)
    ensures s.Open(c) ==> s.After(c, config).startedMillis.Some? &&
                          s.After(c, config).Began(c) <= s.Began(c) < s.After(c, config).Began(c) + NANOS_PER_MILLI
  {
    if s.Sent(c) != [] {
      assert s.Sent(c) == [s.ToSend(c).value];
    }
  }

  /** The report and the state of a call that fails with the error: final, too large or too late ends the saving. */
  predicate FailsWith(s: State, c: Call, config: Config, error: Error) {
    var t := s.After(c, config);
    var started := if s.startedMillis.Some? then s.startedMillis.value * NANOS_PER_MILLI else c.begin;
    if error.final || error.tooLarge || c.end - started >= config.window
    then s.Answer(c, config.window) == SaveFailed(error.message) && t.failed == Some(error.message) && t.archive.None?
    else s.Answer(c, config.window) == Saving(Some(error.message)) && t.failed.None?
  }

  /** An asked call that no outcome answers, in a workspace that was restored and used. */
  predicate Begins(s: State, c: Call) {
    c.asked && s.saved.None? && !s.skipped && s.failed.None? && s.restoredMarker && s.containerStarted
  }

  /**
   * What keeps a call from any attempt: containers that did not stop, a missing root, or the pause after a failed
   * upload, in this order. It packs and sends nothing, leaves the archive for a later call, and fails with that error.
   */
  lemma NoAttempt(s: State, c: Call, config: Config, error: Error)
    requires Begins(s, c)
    requires || c.stopError == Some(error)
             || (c.stopError.None? && !c.hasRoot && error == NO_ROOT)
             || (c.stopError.None? && c.hasRoot && s.uploadError == Some(error) && c.check < s.nextUpload)
    ensures s.Sent(c) == [] && s.Packs(c) == 0 && FailsWith(s, c, config, error)
    ensures var t := s.After(c, config);
            && t.uploadFails == s.uploadFails && t.uploadError == s.uploadError && t.nextUpload == s.nextUpload
            && (t.failed.None? ==> t.archive == s.archive && t.packedMarker == s.packedMarker)
  {
  }

  /** The archive of an earlier attempt is there, with the size that its marker tells. */
  predicate HasArchive(s: State) {
    s.archive.Some? && s.packedMarker.Some? && |s.archive.value| == s.packedMarker.value.1
  }

  /**
   * Every other call makes an attempt, and sends the archive of an earlier one, else what packing gives, else, only
   * when that was too large, what packing without the virtual environment gives.
   */
  lemma AnAttempt(s: State, c: Call, config: Config)
    requires s.Valid() && Begins(s, c) && c.stopError.None? && c.hasRoot
    requires s.uploadError.None? || c.check >= s.nextUpload
    ensures HasArchive(s) ==> s.Sent(c) == [s.archive.value] && s.Packs(c) == 0
    ensures !HasArchive(s) && c.pack.Success? ==> s.Sent(c) == [c.pack.value] && s.Packs(c) == 1
    ensures !HasArchive(s) && c.pack.Failure? && !c.pack.error.tooLarge ==>
              s.Sent(c) == [] && s.Packs(c) == 1 && FailsWith(s, c, config, c.pack.error)
    ensures !HasArchive(s) && c.pack.Failure? && c.pack.error.tooLarge ==>
              && s.Packs(c) == 2
              && (c.packWithoutVenv.Success? ==> s.Sent(c) == [c.packWithoutVenv.value])
              && (c.packWithoutVenv.Failure? ==> s.Sent(c) == [] && FailsWith(s, c, config, c.packWithoutVenv.error))
    ensures s.Sent(c) != [] && c.upload.None? ==>
              var bytes := s.Sent(c)[0];
              && s.Answer(c, config.window) == Saved(Sum(bytes), |bytes|)
              && s.After(c, config).saved == Some((Sum(bytes), |bytes|)) && s.After(c, config).archive.None?
    ensures s.Sent(c) != [] && c.upload.Some? ==>
              && FailsWith(s, c, config, c.upload.value)
              && s.After(c, config).uploadError == c.upload && s.After(c, config).uploadFails == s.uploadFails + 1
              && s.After(c, config).nextUpload == c.uploaded + Pause(config.base, s.uploadFails, config.cap)
              && (s.After(c, config).failed.None? ==>
                  HasArchive(s.After(c, config)) && s.After(c, config).archive == Some(s.Sent(c)[0]))
  {
  }

  // ----- the calls of one process -----

  ghost predicate Trace(states: seq<State>, calls: seq<Call>, config: Config) {
    |states| == |calls| + 1 && forall k | 0 <= k < |calls| :: TraceAt(states, calls, k, config)
  }

  ghost predicate TraceAt(states: seq<State>, calls: seq<Call>, k: nat, config: Config)
    requires k < |calls| && k + 1 < |states|
  {
    states[k].Valid() && ValidCall(calls[k]) && states[k + 1] == states[k].After(calls[k], config)
  }

  /** No upload may start before this time, or there is nothing left to upload. */
  predicate NotBefore(s: State, time: int) {
    s.Outcome() != Nothing || (s.uploadError.Some? && s.nextUpload >= time)
  }

  lemma StaysNotBefore(s: State, c: Call, config: Config, time: int)
    requires s.Valid() && ValidCall(c) && NotBefore(s, time)
    ensures NotBefore(s.After(c, config), time)
    ensures s.Sent(c) != [] ==> c.check >= time
  {
  }

  lemma AfterSend(s: State, c: Call, config: Config)
    requires s.Valid() && ValidCall(c) && s.Sent(c) != []
    ensures NotBefore(s.After(c, config), c.uploaded + Pause(config.base, s.uploadFails, config.cap))
  {
  }

  lemma {:induction false} NotBeforeSince(states: seq<State>, calls: seq<Call>, config: Config, i: nat, j: nat)
    requires Trace(states, calls, config) && i < j <= |calls| && states[i].Sent(calls[i]) != []
    ensures NotBefore(states[j], calls[i].uploaded + Pause(config.base, states[i].uploadFails, config.cap))
  {
    assert TraceAt(states, calls, j - 1, config);
    if i == j - 1 {
      AfterSend(states[i], calls[i], config);
    } else {
      NotBeforeSince(states, calls, config, i, j - 1);
      StaysNotBefore(states[j - 1], calls[j - 1], config,
                     calls[i].uploaded + Pause(config.base, states[i].uploadFails, config.cap));
    }
  }

  /**
   * The pause is obeyed: in one process, whatever calls are made in between, an archive is sent again no sooner than
   * the pause after the upload before it failed.
   */
  lemma SendsAreSpaced(states: seq<State>, calls: seq<Call>, config: Config, i: nat, j: nat)
    requires Trace(states, calls, config) && i < j < |calls|
    requires states[i].Sent(calls[i]) != [] && states[j].Sent(calls[j]) != []
    ensures calls[j].check >= calls[i].uploaded + Pause(config.base, states[i].uploadFails, config.cap)
    ensures calls[i].upload.Some?
  {
    assert TraceAt(states, calls, i, config) && TraceAt(states, calls, j, config);
    NotBeforeSince(states, calls, config, i, j);
    StaysNotBefore(states[j], calls[j], config,
                   calls[i].uploaded + Pause(config.base, states[i].uploadFails, config.cap));
    if calls[i].upload.None? {
      SavedStays(states, calls, config, i, j);
    }
  }

  lemma {:induction false} SavedStays(states: seq<State>, calls: seq<Call>, config: Config, i: nat, j: nat)
    requires Trace(states, calls, config) && i < j <= |calls|
    requires states[i].Sent(calls[i]) != [] && calls[i].upload.None?
    ensures states[j].Outcome() != Nothing
  {
    assert TraceAt(states, calls, j - 1, config);
    if i < j - 1 {
      SavedStays(states, calls, config, i, j - 1);
    }
  }

  /** How many of the first n calls sent an archive in vain. */
  function FailedSends(states: seq<State>, calls: seq<Call>, n: nat): nat
    requires n <= |calls| && n <= |states|
  {
    if n == 0 then 0
    else
      var failed := states[n - 1].Sent(calls[n - 1]) != [] && calls[n - 1].upload.Some?;
      FailedSends(states, calls, n - 1) + if failed then 1 else 0
  }

  /** The failures that set the pause are all the failed uploads of the process. */
  lemma {:induction false} FailsAreCounted(states: seq<State>, calls: seq<Call>, config: Config, n: nat)
    requires Trace(states, calls, config) && n <= |calls|
    ensures states[n].uploadFails == states[0].uploadFails + FailedSends(states, calls, n)
  {
    if n > 0 {
      FailsAreCounted(states, calls, config, n - 1);
      assert TraceAt(states, calls, n - 1, config);
    }
  }

  /** What the calls sent, one after another. */
  function AllSent(states: seq<State>, calls: seq<Call>, n: nat): seq<Bytes>
    requires n <= |calls| && n <= |states|
  {
    if n == 0 then [] else AllSent(states, calls, n - 1) + states[n - 1].Sent(calls[n - 1])
  }

  lemma {:induction false} AllSentMore(states: seq<State>, calls: seq<Call>, n: nat, next: State)
    requires n <= |calls| && n <= |states|
    ensures AllSent(states + [next], calls, n) == AllSent(states, calls, n)
  {
    if n > 0 {
      AllSentMore(states, calls, n - 1, next);
    }
  }

  /** The calls of one process, with the states that they pass through. */
  method RunCalls(m: Manager, calls: seq<Call>) returns (reports: seq<Observed>, ghost states: seq<State>)
    requires m.Valid() && forall c <- calls :: ValidCall(c)
    modifies m
    ensures m.Valid() && |reports| == |calls|
    ensures Trace(states, calls, m.config) && states[0] == old(m.View()) && states[|calls|] == m.View()
    ensures forall k | 0 <= k < |calls| :: reports[k] == states[k].Answer(calls[k], m.config.window)
    ensures m.uploads == old(m.uploads) + AllSent(states, calls, |calls|)
  {
    reports, states := [], [m.View()];
    for k := 0 to |calls|
      invariant m.Valid() && states != [] && states[0] == old(m.View()) && states[|states| - 1] == m.View()
      invariant Recorded(states, calls, reports, k, m.config)
      invariant m.uploads == old(m.uploads) + AllSent(states, calls, k)
    {
      assert calls[k] in calls;
      var obs := OneCall(m, calls[k], m.config);
      RecordedMore(states, calls, reports, k, m.View(), obs, m.config);
      SentMore(old(m.uploads), AllSent(states, calls, k), states[k].Sent(calls[k]));
      reports, states := reports + [obs], states + [m.View()];
    }
  }

  method OneCall(m: Manager, c: Call, ghost config: Config) returns (obs: Observed)
    requires m.Valid() && ValidCall(c) && config == m.config
    modifies m
    ensures m.Valid() && m.View() == old(m.View()).After(c, config) && obs == old(m.View()).Answer(c, config.window)
    ensures m.uploads == old(m.uploads) + old(m.View()).Sent(c)
  {
    obs := m.Save(c);
  }

  /** The states and reports of the first n calls. */
  ghost predicate Recorded(states: seq<State>, calls: seq<Call>, reports: seq<Observed>, n: nat, config: Config) {
    && |states| == n + 1 && |reports| == n <= |calls|
    && (forall k | 0 <= k < n :: TraceAt(states, calls, k, config))
    && forall k | 0 <= k < n :: reports[k] == states[k].Answer(calls[k], config.window)
  }

  lemma RecordedMore(states: seq<State>, calls: seq<Call>, reports: seq<Observed>, n: nat, next: State,
                     report: Observed, config: Config)
    requires Recorded(states, calls, reports, n, config) && n < |calls|
    requires states[n].Valid() && ValidCall(calls[n]) && next == states[n].After(calls[n], config)
    requires report == states[n].Answer(calls[n], config.window)
    ensures Recorded(states + [next], calls, reports + [report], n + 1, config)
    ensures AllSent(states + [next], calls, n + 1) == AllSent(states, calls, n) + states[n].Sent(calls[n])
  {
    AllSentMore(states, calls, n, next);
    forall k | 0 <= k < n + 1
      ensures TraceAt(states + [next], calls, k, config)
    {
      assert k < n ==> TraceAt(states, calls, k, config);
    }
  }

  lemma SentMore(a: seq<Bytes>, b: seq<Bytes>, c: seq<Bytes>)
    ensures a + b + c == a + (b + c)
  {
  }

  // ----- runs -----

  /** A call, or a restart of the agent. */
  datatype Event = Calls(call: Call) | Restarts

  /**
   * Over any run of calls and restarts: once an outcome was reported, every later report that is one repeats it, and an
   * outcome that exists at the start is repeated without any packing or sending.
   */
  method RunSaves(m: Manager, events: seq<Event>) returns (reports: seq<Observed>)
    requires m.Valid() && forall e <- events :: e.Calls? ==> ValidCall(e.call)
    modifies m
    ensures m.Valid() && |reports| == |events|
    ensures forall i, j | 0 <= i < j < |reports| && Terminal(reports[i]) && reports[j] != Nothing ::
              reports[j] == reports[i]
    ensures old(m.OutcomeSeen()) != Nothing ==>
              m.OutcomeSeen() == old(m.OutcomeSeen()) && m.uploads == old(m.uploads) && m.packs == old(m.packs)
    ensures forall i | 0 <= i < |reports| && Terminal(reports[i]) :: m.OutcomeSeen() == reports[i]
  {
    reports := [];
    for k := 0 to |events|
      invariant m.Valid() && |reports| == k
      invariant forall i, j | 0 <= i < j < |reports| && Terminal(reports[i]) && reports[j] != Nothing ::
                  reports[j] == reports[i]
      invariant forall i | 0 <= i < |reports| && Terminal(reports[i]) :: m.OutcomeSeen() == reports[i]
      invariant old(m.OutcomeSeen()) != Nothing ==>
                  m.OutcomeSeen() == old(m.OutcomeSeen()) && m.uploads == old(m.uploads) && m.packs == old(m.packs)
    {
      assert events[k] in events;
      match events[k] {
        case Restarts =>
          m.Restart();
          reports := reports + [Nothing];
        case Calls(call) =>
          var obs := m.Save(call);
          reports := reports + [obs];
      }
    }
  }
}
