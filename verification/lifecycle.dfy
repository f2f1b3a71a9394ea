/**
 * Shutting down without losing what is still to be uploaded (internal/lifecycle, with the save hook of internal/agent).
 */
module Lifecycle {
  import opened Wrappers
  import S = Save
  import T = Text

  datatype Uploads = Uploads(
    inProgress: int, queued: int, errored: int, outOfSpace: bool, sent: int, completed: int, errors: int,
    lastError: string)
  {
    function Pending(): int {
      inProgress + queued
    }
  }

  const NO_UPLOADS := Uploads(0, 0, 0, false, 0, 0, 0, "")

  predicate NonNegative(u: Uploads) {
    u.inProgress >= 0 && u.queued >= 0 && u.sent >= 0 && u.completed >= 0 && u.errors >= 0
  }

  function Sum(a: Uploads, b: Uploads): Uploads {
    Uploads(a.inProgress + b.inProgress, a.queued + b.queued, a.errored + b.errored, a.outOfSpace || b.outOfSpace,
            a.sent + b.sent, a.completed + b.completed, a.errors + b.errors,
            if b.lastError != "" then b.lastError else a.lastError)
  }

  predicate Moved(prev: Uploads, cur: Uploads) {
    || cur.completed > prev.completed
    || cur.Pending() < prev.Pending()
    || (cur.sent > prev.sent && cur.errors == prev.errors)
  }

  // ----- when uploads count as stalled -----

  /** One look at the uploads of all disks: when, their sum, and whether every disk answered. */
  datatype Look = Look(time: nat, total: Uploads, known: bool)

  function LastKnown(looks: seq<Look>): Option<Uploads> {
    if looks == [] then None
    else
      var last := looks[|looks| - 1];
      if last.known then Some(last.total) else LastKnown(looks[..|looks| - 1])
  }

  /** The last look is a known one whose totals moved against the known ones before it. */
  predicate MovedLast(looks: seq<Look>)
    requires looks != []
  {
    var last, mark := looks[|looks| - 1], LastKnown(looks[..|looks| - 1]);
    last.known && mark.Some? && Moved(mark.value, last.total)
  }

  /** The time of the last look that moved, or of the first look. */
  function MovedAt(looks: seq<Look>): nat
    requires looks != []
  {
    if |looks| == 1 || MovedLast(looks) then looks[|looks| - 1].time else MovedAt(looks[..|looks| - 1])
  }

  /** No movement for as long as the limit. */
  predicate Overdue(looks: seq<Look>, limit: nat) {
    looks != [] && looks[|looks| - 1].time - MovedAt(looks) >= limit
  }

  predicate MovedIn(looks: seq<Look>, j: nat)
    requires j < |looks|
  {
    MovedLast(looks[..j + 1])
  }

  /** MovedAt is the time of a look that moved, or of the first, and no look after it moved. */
  lemma {:induction false} MovedAtMeaning(looks: seq<Look>) returns (k: nat)
    requires looks != []
    ensures k < |looks| && MovedAt(looks) == looks[k].time
    ensures k == 0 || MovedIn(looks, k)
    ensures forall j | k < j < |looks| :: !MovedIn(looks, j)
  {
    var n := |looks| - 1;
    assert looks[..n + 1] == looks;
    if n == 0 || MovedLast(looks) {
      k := n;
    } else {
      k := MovedAtMeaning(looks[..n]);
      assert looks[..n][..k + 1] == looks[..k + 1];
      forall j | k < j < |looks|
        ensures !MovedIn(looks, j)
      {
        if j < n {
          assert !MovedIn(looks[..n], j);
          assert looks[..n][..j + 1] == looks[..j + 1];
        }
      }
    }
  }

  /** The last look before the j-th at which every disk answered. */
  predicate KnownBefore(looks: seq<Look>, i: nat, j: nat) {
    && i < j < |looks| && looks[i].known
    && forall k | i < k < j :: !looks[k].known
  }

  lemma {:induction false} LastKnownMeaning(looks: seq<Look>, i: nat, n: nat)
    requires i < n <= |looks| && looks[i].known && forall k | i < k < n :: !looks[k].known
    ensures LastKnown(looks[..n]) == Some(looks[i].total)
    decreases n
  {
    assert looks[..n][..n - 1] == looks[..n - 1];
    if i < n - 1 {
      LastKnownMeaning(looks, i, n - 1);
    }
  }

  /**
   * What counts as movement, over the counters: against the look before at which all disks answered, more uploads
   * completed, fewer pending, or more bytes sent with no new errors. Such a look starts the clock anew, and no other
   * does.
   */
  lemma CountersMove(looks: seq<Look>, i: nat)
    requires looks != [] && KnownBefore(looks, i, |looks| - 1) && looks[|looks| - 1].known
    ensures var last, prev, cur := looks[|looks| - 1], looks[i].total, looks[|looks| - 1].total;
            MovedAt(looks) ==
            if || cur.completed > prev.completed
               || cur.inProgress + cur.queued < prev.inProgress + prev.queued
               || (cur.sent > prev.sent && cur.errors == prev.errors)
            then last.time
            else MovedAt(looks[..|looks| - 1])
  {
    LastKnownMeaning(looks, i, |looks| - 1);
  }

  /** Without an answer from every disk, now or ever before, the clock runs on. */
  lemma UnknownDoesNotMove(looks: seq<Look>)
    requires |looks| > 1
    requires !looks[|looks| - 1].known || forall k | 0 <= k < |looks| - 1 :: !looks[k].known
    ensures MovedAt(looks) == MovedAt(looks[..|looks| - 1])
  {
    if looks[|looks| - 1].known {
      NeverKnown(looks, |looks| - 1);
    }
  }

  lemma {:induction false} NeverKnown(looks: seq<Look>, n: nat)
    requires n <= |looks| && forall k | 0 <= k < n :: !looks[k].known
    ensures LastKnown(looks[..n]) == None
    decreases n
  {
    if n > 0 {
      assert looks[..n][..n - 1] == looks[..n - 1];
      NeverKnown(looks, n - 1);
    }
  }

  /**
   * A queue that moves at every look never stalls, at no look and however far apart they are: each sees more completed,
   * fewer pending, or more bytes sent without new errors.
   */
  lemma MovingNeverStalls(looks: seq<Look>, limit: nat)
    requires limit > 0 && forall j | 0 <= j < |looks| :: looks[j].known
    requires forall j | 0 < j < |looks| ::
               var prev, cur := looks[j - 1].total, looks[j].total;
               || cur.completed > prev.completed
               || cur.inProgress + cur.queued < prev.inProgress + prev.queued
               || (cur.sent > prev.sent && cur.errors == prev.errors)
    ensures forall n | 0 <= n <= |looks| :: !Overdue(looks[..n], limit)
  {
    forall n | 0 < n <= |looks|
      ensures !Overdue(looks[..n], limit)
    {
      if n > 1 {
        CountersMove(looks[..n], n - 2);
      }
    }
  }

  /**
   * The look sees no answer from some disk, or the same queue as before with more errors and at best bytes sent again.
   */
  predicate OnlyResends(looks: seq<Look>, look: Look) {
    look.known ==>
      match LastKnown(looks)
      case None => true
      case Some(mark) =>
        && look.total.completed <= mark.completed && look.total.Pending() >= mark.Pending()
        && look.total.errors != mark.errors
  }

  predicate ResendsAt(looks: seq<Look>, more: seq<Look>, k: nat)
    requires k < |more|
  {
    OnlyResends(looks + more[..k], more[k])
  }

  predicate QuietAt(looks: seq<Look>, more: seq<Look>, k: nat)
    requires k < |more|
  {
    !MovedLast((looks + more[..k]) + [more[k]])
  }

  /** Looks without movement, however many, stall exactly when the limit is reached since the last one with it. */
  lemma {:induction false} QuietStalls(looks: seq<Look>, more: seq<Look>, limit: nat)
    requires looks != [] && forall k | 0 <= k < |more| :: QuietAt(looks, more, k)
    ensures MovedAt(looks + more) == MovedAt(looks)
    ensures more != [] ==> (Overdue(looks + more, limit) <==> more[|more| - 1].time - MovedAt(looks) >= limit)
    decreases |more|
  {
    if more == [] {
      assert looks + more == looks;
    } else {
      var n := |more| - 1;
      forall k | 0 <= k < n
        ensures QuietAt(looks, more[..n], k)
      {
        assert QuietAt(looks, more, k) && more[..n][..k] == more[..k];
      }
      QuietStalls(looks, more[..n], limit);
      assert QuietAt(looks, more, n);
      assert looks + more == (looks + more[..n]) + [more[n]];
      assert (looks + more)[..|looks + more| - 1] == looks + more[..n];
    }
  }

  /**
   * However long disks only send the same bytes again while errors grow, the stall comes exactly when the limit is
   * reached.
   */
  lemma ResendingIsNoMovement(looks: seq<Look>, more: seq<Look>, limit: nat)
    requires looks != [] && forall k | 0 <= k < |more| :: ResendsAt(looks, more, k)
    ensures MovedAt(looks + more) == MovedAt(looks)
    ensures more != [] ==> (Overdue(looks + more, limit) <==> more[|more| - 1].time - MovedAt(looks) >= limit)
  {
    forall k | 0 <= k < |more|
      ensures QuietAt(looks, more, k)
    {
      assert ResendsAt(looks, more, k);
      var before := looks + more[..k];
      assert (before + [more[k]])[..|before|] == before;
    }
    QuietStalls(looks, more, limit);
  }

  // ----- the termination pass -----

  datatype FileState = Alive | Syncing | Synced | DestroyingSelf | Error

  datatype Report = ReportAlive | ReportSyncing | ReportSynced | ReportError

  /** What storage and the state file see of a pass. */
  datatype Effect = UnitStopped(id: string) | Persisted(state: FileState)

  /** What one pass meets. `hook` is the call of Save when the spec asks for one. */
  datatype Pass = Pass(
    now: nat,
    writeSyncing: bool,
    hook: Option<S.Call>,
    units: Option<seq<string>>,
    uploads: map<string, Uploads>,
    stops: map<string, bool>,
    writeSynced: bool,
    writeError: bool)

  ghost predicate ValidPass(p: Pass) {
    && (p.hook.Some? ==> p.hook.value.asked && S.ValidCall(p.hook.value))
    && (forall id <- p.uploads :: NonNegative(p.uploads[id]))
  }

  /** Every listed disk answered, and none has anything left to upload. */
  ghost predicate Drained(p: Pass) {
    && p.units.Some?
    && forall id <- p.units.value :: id in p.uploads && p.uploads[id].Pending() == 0
  }

  ghost predicate AllStop(p: Pass) {
    p.units.Some? && forall id <- p.units.value :: id in p.stops && p.stops[id]
  }

  /** The sum over the disks that answered. */
  function Total(ids: seq<string>, uploads: map<string, Uploads>): Uploads {
    if ids == [] then NO_UPLOADS
    else
      var id := ids[|ids| - 1];
      var front := Total(ids[..|ids| - 1], uploads);
      if id in uploads then Sum(front, uploads[id]) else front
  }

  predicate AllKnown(ids: seq<string>, uploads: map<string, Uploads>) {
    forall id <- ids :: id in uploads
  }

  /** The sum is drained exactly when each disk is. */
  lemma {:induction false} TotalPending(ids: seq<string>, uploads: map<string, Uploads>)
    requires AllKnown(ids, uploads) && forall id <- uploads :: NonNegative(uploads[id])
    ensures Total(ids, uploads).Pending() >= 0
    ensures Total(ids, uploads).Pending() == 0 <==> forall id <- ids :: uploads[id].Pending() == 0
  {
    if ids != [] {
      var n := |ids| - 1;
      assert forall id <- ids[..n] :: id in ids;
      TotalPending(ids[..n], uploads);
      assert ids[n] in ids;
      assert forall id <- ids :: id in ids[..n] || id == ids[n];
    }
  }

  /** The sum of a counter over a list of disks. */
  function SumOf(ids: seq<string>, counter: string -> int): int {
    if ids == [] then 0 else SumOf(ids[..|ids| - 1], counter) + counter(ids[|ids| - 1])
  }

  function Counter(uploads: map<string, Uploads>, field: Uploads -> int): string -> int {
    id => if id in uploads then field(uploads[id]) else 0
  }

  /** Every counter of the total is the sum of that counter over the disks that answered. */
  lemma {:induction false} TotalFields(ids: seq<string>, uploads: map<string, Uploads>)
    ensures Total(ids, uploads).inProgress == SumOf(ids, Counter(uploads, (u: Uploads) => u.inProgress))
    ensures Total(ids, uploads).queued == SumOf(ids, Counter(uploads, (u: Uploads) => u.queued))
    ensures Total(ids, uploads).sent == SumOf(ids, Counter(uploads, (u: Uploads) => u.sent))
    ensures Total(ids, uploads).completed == SumOf(ids, Counter(uploads, (u: Uploads) => u.completed))
    ensures Total(ids, uploads).errors == SumOf(ids, Counter(uploads, (u: Uploads) => u.errors))
  {
    if ids != [] {
      TotalFields(ids[..|ids| - 1], uploads);
    }
  }

  /** One disk's share of a sum: with the others unchanged, the sum changes as the disk does. */
  lemma {:induction false} SumFollows(ids: seq<string>, before: string -> int, after: string -> int, id: string)
    requires forall x <- ids | x != id :: before(x) == after(x)
    ensures id in ids && before(id) < after(id) ==> SumOf(ids, before) < SumOf(ids, after)
    ensures id in ids && before(id) > after(id) ==> SumOf(ids, before) > SumOf(ids, after)
    ensures id !in ids || before(id) == after(id) ==> SumOf(ids, before) == SumOf(ids, after)
  {
    if ids != [] {
      var n := |ids| - 1;
      assert forall x <- ids[..n] :: x in ids;
      SumFollows(ids[..n], before, after, id);
      assert ids[n] in ids;
      assert id in ids <==> id in ids[..n] || id == ids[n];
    }
  }

  /**
   * Movement comes down to single disks: when one disk changes and the others do not, the totals move exactly when that
   * disk has completed more uploads, has fewer pending, or has sent more without new errors.
   */
  lemma OneDiskMoves(ids: seq<string>, before: map<string, Uploads>, after: map<string, Uploads>, id: string)
    requires AllKnown(ids, before) && AllKnown(ids, after) && id in ids
    requires forall x <- ids | x != id :: before[x] == after[x]
    ensures var prev, cur := Total(ids, before), Total(ids, after);
            && (cur.completed > prev.completed <==> after[id].completed > before[id].completed)
            && (cur.inProgress + cur.queued < prev.inProgress + prev.queued <==>
                after[id].inProgress + after[id].queued < before[id].inProgress + before[id].queued)
            && (cur.sent > prev.sent <==> after[id].sent > before[id].sent)
            && (cur.errors == prev.errors <==> after[id].errors == before[id].errors)
  {
    TotalFields(ids, before);
    TotalFields(ids, after);
    PendingField(ids, before);
    PendingField(ids, after);
    FieldFollows(ids, before, after, id, (u: Uploads) => u.completed);
    FieldFollows(ids, before, after, id, (u: Uploads) => u.inProgress + u.queued);
    FieldFollows(ids, before, after, id, (u: Uploads) => u.sent);
    FieldFollows(ids, before, after, id, (u: Uploads) => u.errors);
  }

  lemma FieldFollows(ids: seq<string>, before: map<string, Uploads>, after: map<string, Uploads>, id: string,
                     field: Uploads -> int)
    requires AllKnown(ids, before) && AllKnown(ids, after) && id in ids
    requires forall x <- ids | x != id :: before[x] == after[x]
    ensures var b, a := SumOf(ids, Counter(before, field)), SumOf(ids, Counter(after, field));
            && (a > b <==> field(after[id]) > field(before[id]))
            && (a < b <==> field(after[id]) < field(before[id]))
  {
    SumFollows(ids, Counter(before, field), Counter(after, field), id);
  }

  lemma {:induction false} PendingField(ids: seq<string>, uploads: map<string, Uploads>)
    ensures Total(ids, uploads).inProgress + Total(ids, uploads).queued ==
            SumOf(ids, Counter(uploads, (u: Uploads) => u.inProgress + u.queued))
  {
    if ids != [] {
      PendingField(ids[..|ids| - 1], uploads);
    }
  }

  lemma DrainedMeaning(p: Pass)
    requires ValidPass(p) && p.units.Some?
    ensures Drained(p) <==> AllKnown(p.units.value, p.uploads) && Total(p.units.value, p.uploads).Pending() == 0
  {
    if AllKnown(p.units.value, p.uploads) {
      TotalPending(p.units.value, p.uploads);
    }
  }

  /** Every unit told to stop, in the order of the list. */
  function Stops(ids: seq<string>): (effects: seq<Effect>)
    ensures |effects| == |ids|
    ensures forall e <- effects :: e.UnitStopped? && e.id in ids
  {
    if ids == [] then []
    else
      assert forall id <- ids[..|ids| - 1] :: id in ids;
      Stops(ids[..|ids| - 1]) + [UnitStopped(ids[|ids| - 1])]
  }

  /** What a pass does to units and to the state file once its hook let it go on, given whether uploads have stalled. */
  ghost function FinishEffects(p: Pass, stalled: bool): seq<Effect> {
    if p.units.None? then []
    else if Drained(p) then Stops(p.units.value) + if AllStop(p) && p.writeSynced then [Persisted(Synced)] else []
    else if stalled && p.writeError then [Persisted(Error)]
    else []
  }

  /** A pass looks at the uploads unless they are drained, could not be listed, or have stalled already. */
  ghost function LooksAfter(p: Pass, stalled: bool, looks: seq<Look>): seq<Look> {
    if p.units.None? || Drained(p) || stalled then looks
    else looks + [Look(p.now, Total(p.units.value, p.uploads), AllKnown(p.units.value, p.uploads))]
  }

  ghost function FinishReport(p: Pass, stalled: bool): Report {
    if Drained(p) && AllStop(p) then ReportSynced
    else if stalled then ReportError
    else ReportSyncing
  }

  /** The state file after the effects: what was written last. */
  ghost function FileAfter(effects: seq<Effect>, before: FileState): FileState {
    if effects == [] then before
    else
      var last := effects[|effects| - 1];
      if last.Persisted? then last.state else FileAfter(effects[..|effects| - 1], before)
  }

  lemma {:induction false} NoWriteInStops(ids: seq<string>, before: FileState)
    ensures FileAfter(Stops(ids), before) == before
  {
    if ids != [] {
      NoWriteInStops(ids[..|ids| - 1], before);
      assert Stops(ids)[..|ids| - 1] == Stops(ids[..|ids| - 1]);
    }
  }

  /** The state file after a pass whose hook let it go on. */
  ghost function FinishFile(p: Pass, stalled: bool, before: FileState): FileState {
    if Drained(p) && AllStop(p) && p.writeSynced then Synced
    else if p.units.Some? && !Drained(p) && stalled && p.writeError then Error
    else before
  }

  /** The state file is what the effects wrote last. */
  lemma FinishFileIsLastWritten(p: Pass, stalled: bool, before: FileState)
    ensures FinishFile(p, stalled, before) == FileAfter(FinishEffects(p, stalled), before)
  {
    if Drained(p) {
      var stops := Stops(p.units.value);
      NoWriteInStops(p.units.value, before);
      if AllStop(p) && p.writeSynced {
        assert (stops + [Persisted(Synced)])[|stops|] == Persisted(Synced);
      } else {
        assert stops + [] == stops;
      }
    }
  }

  lemma {:induction false} StopsAll(ids: seq<string>, id: string)
    ensures UnitStopped(id) in Stops(ids) <==> id in ids
  {
    if ids != [] {
      var n := |ids| - 1;
      StopsAll(ids[..n], id);
      assert id in ids <==> id in ids[..n] || id == ids[n];
    }
  }

  /**
   * Every listed disk is stopped, and nothing else, exactly when all are drained; synced is written only on all stops.
   */
  lemma FinishIsSafe(p: Pass, stalled: bool)
    ensures forall id :: UnitStopped(id) in FinishEffects(p, stalled) <==> Drained(p) && id in p.units.value
    ensures Persisted(Synced) in FinishEffects(p, stalled) <==> Drained(p) && AllStop(p) && p.writeSynced
    ensures FinishReport(p, stalled).ReportSynced? <==> Drained(p) && AllStop(p)
    ensures p.units.Some? ==>
              forall e <- FinishEffects(p, stalled), x <- p.units.value | e.UnitStopped? || e == Persisted(Synced) ::
                && x in p.uploads && p.uploads[x].inProgress + p.uploads[x].queued == 0
                && (e == Persisted(Synced) ==> x in p.stops && p.stops[x])
  {
    if Drained(p) {
      var stops, rest := Stops(p.units.value), if AllStop(p) && p.writeSynced then [Persisted(Synced)] else [];
      forall id
        ensures UnitStopped(id) in stops + rest <==> id in p.units.value
      {
        StopsAll(p.units.value, id);
        assert UnitStopped(id) in stops + rest <==> UnitStopped(id) in stops || UnitStopped(id) in rest;
      }
      assert Persisted(Synced) in stops + rest <==> Persisted(Synced) in stops || Persisted(Synced) in rest;
    }
  }

  // ----- the whole state, and what a pass makes of it -----

  datatype Config = Config(stallAfter: nat, save: S.Config)

  /** The state file, the looks of this process, and what Save remembers. */
  datatype State = State(file: FileState, looks: seq<Look>, saver: S.State) {
    /** The pass is over before the containers are stopped: it was finished earlier, or its start cannot be noted. */
    predicate EndsEarly(p: Pass) {
      file.Synced? || file.DestroyingSelf? || (file.Alive? && !p.writeSyncing)
    }

    /** Save is asked for, and the call would leave it to a later one. */
    predicate SaveStaysOpen(p: Pass, config: Config) {
      p.hook.Some? && saver.StaysOpen(p.hook.value, config.save.window)
    }

    predicate Stalled(config: Config) {
      Overdue(looks, config.stallAfter)
    }

    function Begun(): State {
      this.(file := if file.Alive? then Syncing else file)
    }

    function Called(p: Pass, config: Config): State {
      if p.hook.Some? then this.(saver := saver.After(p.hook.value, config.save)) else this
    }

    ghost function Looked(p: Pass, config: Config): State {
      this.(looks := LooksAfter(p, Stalled(config), looks))
    }

    /** What a pass leaves that goes on after its save. */
    ghost function Finished(p: Pass, config: Config): State {
      var seen := Looked(p, config);
      seen.(file := FinishFile(p, seen.Stalled(config), file))
    }

    ghost function After(p: Pass, config: Config): State {
      if EndsEarly(p) then this
      else if SaveStaysOpen(p, config) then Begun().Called(p, config)
      else Begun().Called(p, config).Finished(p, config)
    }

    ghost function Reported(p: Pass, config: Config): Report {
      if EndsEarly(p) then if file.Alive? then ReportAlive else ReportSynced
      else if SaveStaysOpen(p, config) then ReportSyncing
      else FinishReport(p, Looked(p, config).Stalled(config))
    }

    ghost function Effects(p: Pass, config: Config): seq<Effect> {
      if EndsEarly(p) then []
      else (if file.Alive? then [Persisted(Syncing)] else []) +
           if SaveStaysOpen(p, config) then [] else FinishEffects(p, Looked(p, config).Stalled(config))
    }
  }

  /** The states before, between and after the passes of one process. */
  ghost predicate Trace(states: seq<State>, passes: seq<Pass>, config: Config) {
    |states| == |passes| + 1 && forall k | 0 <= k < |passes| :: TraceAt(states, passes, k, config)
  }

  ghost predicate TraceAt(states: seq<State>, passes: seq<Pass>, k: nat, config: Config)
    requires k < |passes| && k + 1 < |states|
  {
    ValidPass(passes[k]) && states[k + 1] == states[k].After(passes[k], config)
  }

  /** A stall that was seen stays, and only a save that stays open keeps a stalled pass from reporting it. */
  lemma StalledPass(s: State, p: Pass, config: Config)
    ensures s.Stalled(config) ==> s.After(p, config).Stalled(config)
    ensures s.Stalled(config) ==>
              (s.Reported(p, config).ReportSyncing? <==> !s.EndsEarly(p) && s.SaveStaysOpen(p, config))
    ensures s.Reported(p, config).ReportError? ==> s.After(p, config).Stalled(config)
  {
  }

  /** A pass that cannot note its start, or that comes after synced, does nothing at all. */
  lemma EarlyEnd(s: State, p: Pass, config: Config)
    requires (s.file.Alive? && !p.writeSyncing) || s.file.Synced? || s.file.DestroyingSelf?
    ensures s.Effects(p, config) == [] && s.After(p, config) == s
    ensures s.Reported(p, config) == if s.file.Alive? then ReportAlive else ReportSynced
  {
  }

  /** A pass that begins notes it first, before its save and before any disk is stopped. */
  lemma BeginningIsNoted(s: State, p: Pass, config: Config)
    requires s.file.Alive? && p.writeSyncing
    ensures s.Effects(p, config) != [] && s.Effects(p, config)[0] == Persisted(Syncing)
    ensures !s.After(p, config).file.Alive?
  {
  }

  // ----- progress -----

  /** A pass without a save that finds every listed disk answering, and one of them busy. */
  ghost predicate Uploading(p: Pass, ids: seq<string>) {
    && p.writeSyncing && p.hook.None? && p.units == Some(ids) && AllKnown(ids, p.uploads)
    && exists id <- ids :: p.uploads[id].inProgress + p.uploads[id].queued != 0
  }

  /** Between two passes one disk completes an upload, has fewer pending, or sends more without new errors. */
  ghost predicate OneAdvances(ids: seq<string>, before: map<string, Uploads>, after: map<string, Uploads>, id: string)
  {
    && AllKnown(ids, before) && AllKnown(ids, after) && id in ids
    && (forall x <- ids | x != id :: before[x] == after[x])
    && (|| after[id].completed > before[id].completed
        || after[id].inProgress + after[id].queued < before[id].inProgress + before[id].queued
        || (after[id].sent > before[id].sent && after[id].errors == before[id].errors))
  }

  function LookOf(p: Pass, ids: seq<string>): Look {
    Look(p.now, Total(ids, p.uploads), true)
  }

  function LooksOf(passes: seq<Pass>, ids: seq<string>): (looks: seq<Look>)
    ensures |looks| == |passes| && forall k | 0 <= k < |looks| :: looks[k] == LookOf(passes[k], ids)
  {
    seq(|passes|, k requires 0 <= k < |passes| => LookOf(passes[k], ids))
  }

  lemma UploadingLooks(p: Pass, ids: seq<string>, looks: seq<Look>)
    requires Uploading(p, ids)
    ensures !Drained(p) && LooksAfter(p, false, looks) == looks + [LookOf(p, ids)]
  {
    var id :| id in ids && p.uploads[id].Pending() != 0;
    assert id in p.units.value;
  }

  /** One disk that advances from pass to pass keeps the looks from being overdue. */
  lemma AdvancingLooks(passes: seq<Pass>, ids: seq<string>, movers: seq<string>, limit: nat)
    requires limit > 0 && |movers| == |passes| && forall k | 0 <= k < |passes| :: Uploading(passes[k], ids)
    requires forall k | 0 < k < |passes| :: OneAdvances(ids, passes[k - 1].uploads, passes[k].uploads, movers[k])
    ensures forall n | 0 <= n <= |passes| :: !OverdueAt(LooksOf(passes, ids), n, limit)
  {
    var looks := LooksOf(passes, ids);
    forall j | 0 < j < |looks|
      ensures var prev, cur := looks[j - 1].total, looks[j].total;
              || cur.completed > prev.completed
              || cur.inProgress + cur.queued < prev.inProgress + prev.queued
              || (cur.sent > prev.sent && cur.errors == prev.errors)
    {
      assert OneAdvances(ids, passes[j - 1].uploads, passes[j].uploads, movers[j]);
      OneDiskMoves(ids, passes[j - 1].uploads, passes[j].uploads, movers[j]);
    }
    MovingNeverStalls(looks, limit);
  }

  predicate OverdueAt(looks: seq<Look>, n: nat, limit: nat)
    requires n <= |looks|
  {
    Overdue(looks[..n], limit)
  }

  /** The state of a process after n looks in time: its state file says syncing, unless none was made. */
  predicate InTime(s: State, looks: seq<Look>, n: nat)
    requires n <= |looks|
  {
    s.looks == looks[..n] && (s.file.Syncing? || (n == 0 && s.file.Alive?))
  }

  lemma UploadingStep(s: State, p: Pass, ids: seq<string>, looks: seq<Look>, n: nat, config: Config)
    requires Uploading(p, ids) && n < |looks| && looks[n] == LookOf(p, ids) && InTime(s, looks, n)
    requires !OverdueAt(looks, n, config.stallAfter) && !OverdueAt(looks, n + 1, config.stallAfter)
    ensures s.Reported(p, config) == ReportSyncing
    ensures InTime(s.After(p, config), looks, n + 1)
  {
    UploadingLooks(p, ids, s.looks);
    assert looks[..n + 1] == looks[..n] + [LookOf(p, ids)];
  }

  /** After n passes the process is in time, and every report so far was syncing. */
  predicate SyncingSoFar(states: seq<State>, reports: seq<Report>, looks: seq<Look>, n: nat) {
    && n < |states| && n <= |reports| && n <= |looks|
    && InTime(states[n], looks, n)
    && forall k | 0 <= k < n :: reports[k] == ReportSyncing
  }

  /** The k-th pass, its report, and a look that is in time. */
  ghost predicate InTimeAt(states: seq<State>, passes: seq<Pass>, reports: seq<Report>, ids: seq<string>,
                           looks: seq<Look>, k: nat, config: Config)
  {
    && k < |passes| == |reports| == |looks| && |states| == |passes| + 1
    && TraceAt(states, passes, k, config) && reports[k] == states[k].Reported(passes[k], config)
    && Uploading(passes[k], ids) && looks[k] == LookOf(passes[k], ids)
    && !OverdueAt(looks, k, config.stallAfter) && !OverdueAt(looks, k + 1, config.stallAfter)
  }

  lemma SyncingOnceMore(states: seq<State>, passes: seq<Pass>, reports: seq<Report>, ids: seq<string>,
                        looks: seq<Look>, k: nat, config: Config)
    requires SyncingSoFar(states, reports, looks, k) && InTimeAt(states, passes, reports, ids, looks, k, config)
    ensures SyncingSoFar(states, reports, looks, k + 1)
  {
    UploadingStep(states[k], passes[k], ids, looks, k, config);
  }

  lemma {:induction false} StaysSyncing(states: seq<State>, passes: seq<Pass>, reports: seq<Report>, ids: seq<string>,
                                        looks: seq<Look>, n: nat, config: Config)
    requires SyncingSoFar(states, reports, looks, 0)
    requires forall k | 0 <= k < n :: InTimeAt(states, passes, reports, ids, looks, k, config)
    ensures SyncingSoFar(states, reports, looks, n)
  {
    if n > 0 {
      assert InTimeAt(states, passes, reports, ids, looks, n - 1, config);
      StaysSyncing(states, passes, reports, ids, looks, n - 1, config);
      SyncingOnceMore(states, passes, reports, ids, looks, n - 1, config);
    }
  }

  /**
   * As long as one disk advances from each pass to the next, however far apart they are, every pass of the process
   * reports syncing, and the state file says so in the end.
   */
  lemma ProgressKeepsSyncing(states: seq<State>, passes: seq<Pass>, reports: seq<Report>, ids: seq<string>,
                             movers: seq<string>, config: Config)
    requires Trace(states, passes, config) && config.stallAfter > 0 && |passes| == |movers| == |reports|
    requires forall k | 0 <= k < |passes| :: reports[k] == states[k].Reported(passes[k], config)
    requires states[0].looks == [] && (states[0].file.Alive? || states[0].file.Syncing?)
    requires forall k | 0 <= k < |passes| :: Uploading(passes[k], ids)
    requires forall k | 0 < k < |passes| :: OneAdvances(ids, passes[k - 1].uploads, passes[k].uploads, movers[k])
    ensures forall k | 0 <= k < |reports| :: reports[k] == ReportSyncing
    ensures passes != [] ==> states[|passes|].file == Syncing
  {
    var looks := LooksOf(passes, ids);
    AdvancingLooks(passes, ids, movers, config.stallAfter);
    forall k | 0 <= k < |passes|
      ensures InTimeAt(states, passes, reports, ids, looks, k, config)
    {
      assert TraceAt(states, passes, k, config);
    }
    StaysSyncing(states, passes, reports, ids, looks, |passes|, config);
  }

  /**
   * A save at its outcome stays there and does not stay open, and a pass that reports a stall has no save or is past
   * it.
   */
  lemma StallOrSave(s: State, p: Pass, config: Config)
    requires ValidPass(p)
    ensures s.saver.Outcome() != S.Nothing ==>
              !s.SaveStaysOpen(p, config) && s.After(p, config).saver.Outcome() == s.saver.Outcome()
    ensures s.Reported(p, config).ReportError? ==> p.hook.None? || s.After(p, config).saver.Outcome() != S.Nothing
  {
  }

  /** What the pass that reported a stall left holds until the later one. */
  lemma {:induction false} SinceStall(states: seq<State>, passes: seq<Pass>, i: nat, j: nat, config: Config)
    requires Trace(states, passes, config) && i < j <= |passes|
    requires states[i].Reported(passes[i], config).ReportError?
    ensures states[j].Stalled(config) && (passes[i].hook.None? || states[j].saver.Outcome() != S.Nothing)
    decreases j
  {
    var last := j - 1;
    assert TraceAt(states, passes, last, config);
    StalledPass(states[last], passes[last], config);
    StallOrSave(states[last], passes[last], config);
    if i < last {
      SinceStall(states, passes, i, last, config);
    }
  }

  /**
   * After a stall was reported in a process, a later pass reports plain syncing exactly when it can begin and asks for
   * a save that stays open; and that happens only when the pass that saw the stall asked for no save.
   */
  lemma SyncingAfterStall(states: seq<State>, passes: seq<Pass>, i: nat, j: nat, config: Config)
    requires Trace(states, passes, config) && i < j < |passes|
    requires states[i].Reported(passes[i], config).ReportError?
    ensures var now := states[j];
            now.Reported(passes[j], config).ReportSyncing? <==>
            !now.EndsEarly(passes[j]) && now.SaveStaysOpen(passes[j], config)
    ensures states[j].Reported(passes[j], config).ReportSyncing? ==> passes[i].hook.None? && passes[j].hook.Some?
  {
    SinceStall(states, passes, i, j, config);
    assert TraceAt(states, passes, j, config);
    StalledPass(states[j], passes[j], config);
    StallOrSave(states[j], passes[j], config);
  }

  class Manager {
    const stallAfter: nat
    const saver: S.Manager

    var file: FileState
    var mark: Option<Uploads>
    var movedAt: Option<nat>
    var stalled: bool

    ghost var looks: seq<Look>
    ghost var effects: seq<Effect>

    constructor (stallAfter: nat, saver: S.Manager)
      requires saver.Valid()
      ensures Valid() && this.saver == saver && this.stallAfter == stallAfter
      ensures file == Alive && !stalled && looks == [] && effects == []
    {
      this.stallAfter, this.saver := stallAfter, saver;
      file, mark, movedAt, stalled := Alive, None, None, false;
      looks, effects := [], [];
    }

    ghost predicate Valid()
      reads this, saver
    {
      && saver.Valid()
      && mark == LastKnown(looks)
      && movedAt == (if looks == [] then None else Some(MovedAt(looks)))
      && (stalled <==> Overdue(looks, stallAfter))
    }

    /** SetState: the file is replaced, or stays as it was. */
    method SetState(state: FileState, writable: bool) returns (ok: bool)
      modifies this`file, this`effects
      ensures ok == writable
      ensures file == if ok then state else old(file)
      ensures effects == if ok then old(effects) + [Persisted(state)] else old(effects)
    {
      ok := writable;
      if ok {
        file := state;
        effects := effects + [Persisted(state)];
      }
    }

    /** watch: note the look, and say whether the uploads have stalled. A stall, once seen, stays. */
    method Watch(now: nat, cur: Uploads, known: bool) returns (stall: bool)
      requires Valid()
      modifies this`mark, this`movedAt, this`stalled, this`looks
      ensures Valid() && stall == stalled
      ensures looks == if old(stalled) then old(looks) else old(looks) + [Look(now, cur, known)]
      ensures old(stalled) ==> stalled
    {
      if stalled {
        return true;
      }
      ghost var before := looks;
      looks := looks + [Look(now, cur, known)];
      assert looks[..|before|] == before;
      if movedAt.None? {
        movedAt := Some(now);
      }
      if known {
        if mark.Some? && Moved(mark.value, cur) {
          movedAt := Some(now);
        }
        mark := Some(cur);
      }
      if now - movedAt.value < stallAfter {
        return false;
      }
      stalled := true;
      stall := true;
    }

    /** syncing: a stall that was seen is reported for as long as the process lives. */
    function StillSyncing(): Report
      reads this
    {
      if stalled then ReportError else ReportSyncing
    }

    /** flushStorageUnits: every unit is told to stop, whether the others did or not. */
    method FlushStorageUnits(ids: seq<string>, stops: map<string, bool>) returns (ok: bool)
      modifies this`effects
      ensures ok <==> forall id <- ids :: id in stops && stops[id]
      ensures effects == old(effects) + Stops(ids)
    {
      ok := true;
      for i := 0 to |ids|
        invariant ok <==> forall id <- ids[..i] :: id in stops && stops[id]
        invariant effects == old(effects) + Stops(ids[..i])
      {
        var id := ids[i];
        assert ids[..i + 1] == ids[..i] + [id];
        effects := effects + [UnitStopped(id)];
        if !(id in stops && stops[id]) {
          ok := false;
        }
      }
      assert ids[..|ids|] == ids;
    }

    /** finishSync: stop the disks once nothing is left to upload, else watch that something moves. */
    method FinishSync(p: Pass) returns (report: Report)
      requires Valid() && ValidPass(p)
      modifies this`file, this`mark, this`movedAt, this`stalled, this`looks, this`effects
      ensures Valid() && report == FinishReport(p, stalled)
      ensures effects == old(effects) + FinishEffects(p, stalled)
      ensures file == FinishFile(p, stalled, old(file))
      ensures looks == LooksAfter(p, old(stalled), old(looks))
      ensures View() == old(View()).Finished(p, Settings())
      ensures stalled == old(View()).Looked(p, Settings()).Stalled(Settings())
      ensures old(stalled) ==> stalled
    {
      if p.units.None? {
        assert FinishEffects(p, stalled) == [] && effects + [] == effects;
        return StillSyncing();
      }
      var ids := p.units.value;
      var total, known := AddUp(ids, p.uploads);
      DrainedMeaning(p);
      if known && total.Pending() == 0 {
        report := StopUnits(p);
      } else {
        report := WatchUploads(p, total, known);
      }
    }

    /** The branch of finishSync for disks that still have something to upload or did not answer. */
    method WatchUploads(p: Pass, total: Uploads, known: bool) returns (report: Report)
      requires Valid() && p.units.Some? && !Drained(p)
      modifies this`file, this`mark, this`movedAt, this`stalled, this`looks, this`effects
      ensures Valid() && report == FinishReport(p, stalled)
      ensures effects == old(effects) + FinishEffects(p, stalled)
      ensures file == FinishFile(p, stalled, old(file))
      ensures looks == if old(stalled) then old(looks) else old(looks) + [Look(p.now, total, known)]
      ensures old(stalled) ==> stalled
    {
      var stall := Watch(p.now, total, known);
      if stall {
        var ok := SetState(Error, p.writeError);
        return ReportError;
      }
      report := StillSyncing();
    }

    /** The loop that asks every disk. */
    method AddUp(ids: seq<string>, uploads: map<string, Uploads>) returns (total: Uploads, known: bool)
      ensures total == Total(ids, uploads) && known == AllKnown(ids, uploads)
    {
      total, known := NO_UPLOADS, true;
      for i := 0 to |ids|
        invariant total == Total(ids[..i], uploads)
        invariant known == AllKnown(ids[..i], uploads)
      {
        var id := ids[i];
        assert ids[..i + 1] == ids[..i] + [id];
        if id in uploads {
          total := Sum(total, uploads[id]);
        } else {
          known := false;
        }
      }
      assert ids[..|ids|] == ids;
    }

    /** The branch of finishSync for drained disks. */
    method StopUnits(p: Pass) returns (report: Report)
      requires Valid() && Drained(p)
      modifies this`file, this`effects
      ensures Valid() && report == FinishReport(p, stalled) && stalled == old(stalled) && looks == old(looks)
      ensures effects == old(effects) + FinishEffects(p, stalled)
      ensures file == FinishFile(p, stalled, old(file))
    {
      var stopped := FlushStorageUnits(p.units.value, p.stops);
      if !stopped {
        return StillSyncing();
      }
      var written := SetState(Synced, p.writeSynced);
      report := ReportSynced;
    }

    ghost function View(): State
      reads this, saver
    {
      State(file, looks, saver.View())
    }

    ghost function Settings(): Config {
      Config(stallAfter, saver.config)
    }

    /**
     * HandleTermination. What a pass reports, does and leaves, in full: it notes its start, and it stops the disks or
     * watches them only if the save hook, called in this very pass, let it go on, which it does exactly when the call
     * of Save does not leave the saving to a later one.
     */
    method HandleTermination(p: Pass) returns (report: Report)
      requires Valid() && ValidPass(p)
      modifies this, saver
      ensures Valid()
      ensures report == old(View()).Reported(p, Settings())
      ensures effects == old(effects) + old(View()).Effects(p, Settings())
      ensures View() == old(View()).After(p, Settings())
      ensures p.hook.None? ==> unchanged(saver)
      ensures !old(View()).EndsEarly(p) && p.hook.Some? ==>
                (saver.OutcomeSeen() == S.Nothing <==> old(View()).SaveStaysOpen(p, Settings()))
      ensures old(saver.OutcomeSeen()) != S.Nothing ==> saver.OutcomeSeen() == old(saver.OutcomeSeen())
      ensures old(stalled) ==> stalled
    {
      if file.Synced? || file.DestroyingSelf? {
        return ReportSynced;
      }
      if file.Alive? {
        var ok := SetState(Syncing, p.writeSyncing);
        if !ok {
          return ReportAlive;
        }
      }
      report := FinishPass(p);
      T.ConcatAssociates(old(effects), if old(file).Alive? then [Persisted(Syncing)] else [],
                         if old(View()).SaveStaysOpen(p, Settings()) then []
                         else FinishEffects(p, old(View()).Looked(p, Settings()).Stalled(Settings())));
    }

    /** The rest of a pass, once its start is noted. */
    method FinishPass(p: Pass) returns (report: Report)
      requires Valid() && ValidPass(p)
      modifies this`file, this`mark, this`movedAt, this`stalled, this`looks, this`effects, saver
      ensures Valid() && (p.hook.None? ==> unchanged(saver))
      ensures var open := old(View()).SaveStaysOpen(p, Settings());
              var stall := old(View()).Looked(p, Settings()).Stalled(Settings());
              && report == (if open then ReportSyncing else FinishReport(p, stall))
              && effects == old(effects) + (if open then [] else FinishEffects(p, stall))
              && View() == (if open then old(View()).Called(p, Settings())
                            else old(View()).Called(p, Settings()).Finished(p, Settings()))
              && (p.hook.Some? ==> (saver.OutcomeSeen() == S.Nothing <==> open))
      ensures old(saver.OutcomeSeen()) != S.Nothing ==> saver.OutcomeSeen() == old(saver.OutcomeSeen())
      ensures old(stalled) ==> stalled
    {
      var goesOn := CallHook(p);
      if !goesOn {
        return ReportSyncing;
      }
      report := FinishSync(p);
    }

    /** AfterStop of the agent: whether the pass goes on after the call of Save, or without one. */
    method CallHook(p: Pass) returns (goesOn: bool)
      requires saver.Valid() && ValidPass(p)
      modifies saver
      ensures saver.Valid() && (p.hook.None? ==> unchanged(saver))
      ensures goesOn <==> !(p.hook.Some? && old(saver.View()).StaysOpen(p.hook.value, saver.window))
      ensures saver.View() ==
              if p.hook.Some? then old(saver.View()).After(p.hook.value, saver.config) else old(saver.View())
      ensures p.hook.Some? ==> (goesOn <==> saver.OutcomeSeen() != S.Nothing)
      ensures old(saver.OutcomeSeen()) != S.Nothing ==> saver.OutcomeSeen() == old(saver.OutcomeSeen())
    {
      goesOn := true;
      if p.hook.Some? {
        var obs := saver.Save(p.hook.value);
        goesOn := !obs.Saving?;
      }
    }

    /** The agent starts anew: only the state file and the save markers are left. */
    method Restart()
      requires Valid()
      modifies this`mark, this`movedAt, this`stalled, this`looks, saver
      ensures Valid() && !stalled && View() == State(old(file), [], old(saver.View()).Restarted())
      ensures saver.OutcomeSeen() == old(saver.OutcomeSeen())
    {
      mark, movedAt, stalled := None, None, false;
      looks := [];
      saver.Restart();
    }
  }

  // ----- runs of passes -----

  datatype Event = Passes(pass: Pass) | Restarts

  /** The pass does this to storage with every listed disk drained, and its save, if it asks for one, at its outcome. */
  ghost predicate Justifies(p: Pass, e: Effect, outcome: S.Observed) {
    && Drained(p)
    && (p.hook.None? || outcome != S.Nothing)
    && (if e.UnitStopped? then e.id in p.units.value else AllStop(p))
  }

  lemma EffectsJustified(p: Pass, stalled: bool, outcome: S.Observed)
    requires p.hook.None? || outcome != S.Nothing
    ensures forall e <- FinishEffects(p, stalled) | e.UnitStopped? || e == Persisted(Synced) :: Justifies(p, e, outcome)
  {
    FinishIsSafe(p, stalled);
    forall e <- FinishEffects(p, stalled) | e.UnitStopped?
      ensures Drained(p) && e.id in p.units.value
    {
      assert e == UnitStopped(e.id);
    }
  }

  /** What a whole run did, event by event. */
  ghost function Flat(log: seq<seq<Effect>>): seq<Effect> {
    if log == [] then [] else Flat(log[..|log| - 1]) + log[|log| - 1]
  }

  /** The effects of one event, and what the save markers said after it. */
  ghost predicate JustifiedBy(event: Event, done: seq<Effect>, outcome: S.Observed) {
    forall e <- done | e.UnitStopped? || e == Persisted(Synced) :: event.Passes? && Justifies(event.pass, e, outcome)
  }

  /**
   * Over any run of passes and restarts, every disk that is stopped and every synced that is written comes in a pass
   * that, in that very pass, found all listed disks drained and its save, if it asks for one, at an outcome.
   */
  method RunPasses(m: Manager, events: seq<Event>)
    returns (reports: seq<Report>, ghost log: seq<seq<Effect>>, ghost outcomes: seq<S.Observed>)
    requires m.Valid() && forall e <- events :: e.Passes? ==> ValidPass(e.pass)
    modifies m, m.saver
    ensures m.Valid() && |reports| == |log| == |outcomes| == |events|
    ensures m.effects == old(m.effects) + Flat(log)
    ensures forall k | 0 <= k < |events| :: JustifiedBy(events[k], log[k], outcomes[k])
    ensures events != [] ==> outcomes[|events| - 1] == m.saver.OutcomeSeen()
    ensures forall i, j | 0 <= i <= j < |events| && outcomes[i] != S.Nothing :: outcomes[j] == outcomes[i]
  {
    reports, log, outcomes := [], [], [];
    for k := 0 to |events|
      invariant m.Valid() && |reports| == k && Accounts(events, log, outcomes, k)
      invariant m.effects == old(m.effects) + Flat(log)
      invariant k > 0 ==> outcomes[k - 1] == m.saver.OutcomeSeen()
    {
      assert events[k] in events;
      var report, done := OneEvent(m, events[k]);
      AccountsMore(events, log, outcomes, k, done, m.saver.OutcomeSeen());
      T.ConcatAssociates(old(m.effects), Flat(log), done);
      reports, log, outcomes := reports + [report], log + [done], outcomes + [m.saver.OutcomeSeen()];
    }
  }

  /** The effects and outcomes of the first k events. */
  ghost predicate Accounts(events: seq<Event>, log: seq<seq<Effect>>, outcomes: seq<S.Observed>, k: nat) {
    && |log| == |outcomes| == k <= |events|
    && Final(outcomes)
    && forall i | 0 <= i < k :: JustifiedBy(events[i], log[i], outcomes[i])
  }

  lemma AccountsMore(events: seq<Event>, log: seq<seq<Effect>>, outcomes: seq<S.Observed>, k: nat,
                     done: seq<Effect>, outcome: S.Observed)
    requires k < |events| && Accounts(events, log, outcomes, k) && JustifiedBy(events[k], done, outcome)
    requires k > 0 && outcomes[k - 1] != S.Nothing ==> outcome == outcomes[k - 1]
    ensures Accounts(events, log + [done], outcomes + [outcome], k + 1)
    ensures Flat(log + [done]) == Flat(log) + done
  {
    FinalGrows(outcomes, outcome);
    assert (log + [done])[..k] == log;
  }

  /** Once there is an outcome it stays. */
  ghost predicate Final(outcomes: seq<S.Observed>) {
    forall i, j | 0 <= i <= j < |outcomes| && outcomes[i] != S.Nothing :: outcomes[j] == outcomes[i]
  }

  lemma FinalGrows(outcomes: seq<S.Observed>, next: S.Observed)
    requires Final(outcomes)
    requires outcomes != [] && outcomes[|outcomes| - 1] != S.Nothing ==> next == outcomes[|outcomes| - 1]
    ensures Final(outcomes + [next])
  {
  }

  method OneEvent(m: Manager, event: Event) returns (report: Report, ghost done: seq<Effect>)
    requires m.Valid() && (event.Passes? ==> ValidPass(event.pass))
    modifies m, m.saver
    ensures m.Valid() && m.effects == old(m.effects) + done
    ensures JustifiedBy(event, done, m.saver.OutcomeSeen())
    ensures old(m.saver.OutcomeSeen()) != S.Nothing ==> m.saver.OutcomeSeen() == old(m.saver.OutcomeSeen())
  {
    match event {
      case Restarts =>
        m.Restart();
        report, done := ReportAlive, [];
      case Passes(pass) =>
        report, done := OnePass(m, pass);
    }
  }

  method OnePass(m: Manager, pass: Pass) returns (report: Report, ghost done: seq<Effect>)
    requires m.Valid() && ValidPass(pass)
    modifies m, m.saver
    ensures m.Valid() && m.effects == old(m.effects) + done
    ensures JustifiedBy(Passes(pass), done, m.saver.OutcomeSeen())
    ensures old(m.saver.OutcomeSeen()) != S.Nothing ==> m.saver.OutcomeSeen() == old(m.saver.OutcomeSeen())
  {
    ghost var before, config := m.View(), m.Settings();
    report := m.HandleTermination(pass);
    done := before.Effects(pass, config);
    if !before.EndsEarly(pass) && !before.SaveStaysOpen(pass, config) {
      EffectsJustified(pass, before.Looked(pass, config).Stalled(config), m.saver.OutcomeSeen());
    }
  }

  /**
   * In one process: the reports are those of the state folded over the passes. After a stall was reported a pass
   * reports plain syncing exactly when it begins and asks for a save that stays open, and that only happens when the
   * pass that saw the stall did not ask for one. So when the passes agree on whether to save, it never happens.
   */
  method RunAfterStall(m: Manager, passes: seq<Pass>) returns (reports: seq<Report>, ghost states: seq<State>)
    requires m.Valid() && forall p <- passes :: ValidPass(p)
    modifies m, m.saver
    ensures m.Valid() && |reports| == |passes|
    ensures Trace(states, passes, m.Settings()) && states[0] == old(m.View()) && states[|passes|] == m.View()
    ensures forall k | 0 <= k < |passes| :: reports[k] == states[k].Reported(passes[k], m.Settings())
    ensures forall i, j | 0 <= i < j < |reports| && reports[i].ReportError? ::
              reports[j].ReportSyncing? <==>
              !states[j].EndsEarly(passes[j]) && states[j].SaveStaysOpen(passes[j], m.Settings())
    ensures forall i, j | 0 <= i < j < |reports| && reports[i].ReportError? && reports[j].ReportSyncing? ::
              passes[i].hook.None? && passes[j].hook.Some?
    ensures (forall p <- passes :: p.hook.None?) || (forall p <- passes :: p.hook.Some?) ==>
              forall i, j | 0 <= i < j < |reports| && reports[i].ReportError? :: !reports[j].ReportSyncing?
  {
    reports, states := RunTrace(m, passes);
    AllAfterStall(states, passes, reports, m.Settings());
  }

  method RunTrace(m: Manager, passes: seq<Pass>) returns (reports: seq<Report>, ghost states: seq<State>)
    requires m.Valid() && forall p <- passes :: ValidPass(p)
    modifies m, m.saver
    ensures m.Valid() && |reports| == |passes|
    ensures Trace(states, passes, m.Settings()) && states[0] == old(m.View()) && states[|passes|] == m.View()
    ensures forall k | 0 <= k < |passes| :: reports[k] == states[k].Reported(passes[k], m.Settings())
  {
    reports, states := [], [m.View()];
    ghost var config := m.Settings();
    for k := 0 to |passes|
      invariant m.Valid() && |reports| == k && |states| == k + 1 && states[0] == old(m.View()) && states[k] == m.View()
      invariant forall i | 0 <= i < k :: TraceAt(states, passes, i, config)
      invariant forall i | 0 <= i < k :: reports[i] == states[i].Reported(passes[i], config)
    {
      assert passes[k] in passes;
      var report := TracedPass(m, passes[k], config);
      TraceGrows(states, passes, k, m.View(), config);
      reports, states := reports + [report], states + [m.View()];
    }
  }

  method TracedPass(m: Manager, p: Pass, ghost config: Config) returns (report: Report)
    requires m.Valid() && ValidPass(p) && config == m.Settings()
    modifies m, m.saver
    ensures m.Valid() && m.View() == old(m.View()).After(p, config) && report == old(m.View()).Reported(p, config)
  {
    report := m.HandleTermination(p);
  }

  lemma TraceGrows(states: seq<State>, passes: seq<Pass>, k: nat, next: State, config: Config)
    requires k < |passes| && |states| == k + 1 && ValidPass(passes[k]) && next == states[k].After(passes[k], config)
    requires forall i | 0 <= i < k :: TraceAt(states, passes, i, config)
    ensures forall i | 0 <= i < k + 1 :: TraceAt(states + [next], passes, i, config)
  {
    forall i | 0 <= i < k + 1
      ensures TraceAt(states + [next], passes, i, config)
    {
      assert i < k ==> TraceAt(states, passes, i, config);
    }
  }

  lemma AllAfterStall(states: seq<State>, passes: seq<Pass>, reports: seq<Report>, config: Config)
    requires Trace(states, passes, config) && |reports| == |passes|
    requires forall k | 0 <= k < |passes| :: reports[k] == states[k].Reported(passes[k], config)
    ensures forall i, j | 0 <= i < j < |reports| && reports[i].ReportError? ::
              reports[j].ReportSyncing? <==>
              !states[j].EndsEarly(passes[j]) && states[j].SaveStaysOpen(passes[j], config)
    ensures forall i, j | 0 <= i < j < |reports| && reports[i].ReportError? && reports[j].ReportSyncing? ::
              passes[i].hook.None? && passes[j].hook.Some?
    ensures (forall p <- passes :: p.hook.None?) || (forall p <- passes :: p.hook.Some?) ==>
              forall i, j | 0 <= i < j < |reports| && reports[i].ReportError? :: !reports[j].ReportSyncing?
  {
    forall i, j | 0 <= i < j < |reports| && reports[i].ReportError?
      ensures reports[j].ReportSyncing? <==>
              !states[j].EndsEarly(passes[j]) && states[j].SaveStaysOpen(passes[j], config)
      ensures reports[j].ReportSyncing? ==> passes[i].hook.None? && passes[j].hook.Some?
    {
      SyncingAfterStall(states, passes, i, j, config);
    }
    forall i | 0 <= i < |passes|
      ensures passes[i] in passes
    {
    }
  }

  /** A pass without a save that finds the one disk busy, and that can write what it wants to. */
  predicate BusyPass(p: Pass, id: string) {
    && p.writeSyncing && p.writeError && p.hook.None? && p.units == Some([id])
    && id in p.uploads && p.uploads[id].Pending() > 0
  }

  /** What such a pass sees. */
  function BusyLook(p: Pass, id: string): Look
    requires BusyPass(p, id)
  {
    Look(p.now, Total([id], p.uploads), true)
  }

  lemma BusyIsNotDrained(p: Pass, id: string, looks: seq<Look>)
    requires BusyPass(p, id)
    ensures !Drained(p) && LooksAfter(p, false, looks) == looks + [BusyLook(p, id)]
  {
    assert id in p.units.value;
    assert forall i <- [id] :: i == id;
  }

  /** The first look of a process starts the clock. */
  lemma FirstLook(s: State, p: Pass, id: string, config: Config)
    requires BusyPass(p, id) && s.file.Alive? && s.looks == [] && config.stallAfter > 0
    ensures s.Reported(p, config) == ReportSyncing
    ensures s.After(p, config) == State(Syncing, [BusyLook(p, id)], s.saver)
  {
    BusyIsNotDrained(p, id, []);
    assert !Overdue([BusyLook(p, id)], config.stallAfter);
  }

  /** The same look a limit later stalls. */
  lemma SecondLook(s: State, p: Pass, id: string, config: Config)
    requires BusyPass(p, id) && s.file.Syncing? && p.now >= config.stallAfter > 0
    requires s.looks == [BusyLook(p, id).(time := p.now - config.stallAfter)]
    ensures s.Reported(p, config) == ReportError
    ensures s.After(p, config).file.Error? && s.After(p, config).saver == s.saver
  {
    BusyIsNotDrained(p, id, s.looks);
    var seen := s.looks + [BusyLook(p, id)];
    assert seen[..1] == s.looks;
    assert MovedAt(s.looks) == p.now - config.stallAfter;
    assert !MovedLast(seen);
    assert Overdue(seen, config.stallAfter);
  }

  /** A pass over a stalled process whose save is left to a later one reports plain syncing. */
  lemma LateSave(s: State, p: Pass, config: Config)
    requires s.file.Error? && s.SaveStaysOpen(p, config)
    ensures s.Reported(p, config) == ReportSyncing
  {
    assert !s.EndsEarly(p);
  }

  /** Two passes that see the same uploads, the limit apart, and then one that asks for a save. */
  function LatePasses(p: Pass, late: S.Call, limit: nat): seq<Pass> {
    [p, p.(now := p.now + limit), p.(now := p.now + limit, hook := Some(late))]
  }

  /**
   * A save that is first asked for after the stall hides it: whatever the limit, the busy disk and the save, as long as
   * the save is left to a later call.
   */
  lemma LateSaveHidesStall(states: seq<State>, p: Pass, id: string, late: S.Call, config: Config)
    requires BusyPass(p, id) && config.stallAfter > 0
    requires Trace(states, LatePasses(p, late, config.stallAfter), config)
    requires states[0].file.Alive? && states[0].looks == [] && states[0].saver.StaysOpen(late, config.save.window)
    ensures states[0].Reported(p, config) == ReportSyncing
    ensures states[1].Reported(LatePasses(p, late, config.stallAfter)[1], config) == ReportError
    ensures states[2].Reported(LatePasses(p, late, config.stallAfter)[2], config) == ReportSyncing
  {
    var passes := LatePasses(p, late, config.stallAfter);
    assert TraceAt(states, passes, 0, config) && TraceAt(states, passes, 1, config);
    FirstLook(states[0], p, id, config);
    SecondLook(states[1], passes[1], id, config);
    LateSave(states[2], passes[2], config);
  }

  /** A process of which this is the run, for every limit and window: its save cannot stop the containers. */
  method RunWithLateSave(limit: nat, window: nat) returns (reports: seq<Report>)
    requires limit > 0 && window > 0
    ensures reports == [ReportSyncing, ReportError, ReportSyncing]
  {
    var m, p, late := StartBusy(limit, window);
    ghost var states;
    reports, states := RunTrace(m, LatePasses(p, late, limit));
    LateSaveHidesStall(states, p, "d", late, m.Settings());
  }

  /** A new process, a pass over one disk with one part to upload, and a save that cannot stop the containers. */
  method StartBusy(limit: nat, window: nat) returns (m: Manager, p: Pass, late: S.Call)
    requires window > 0
    ensures fresh(m) && fresh(m.saver) && m.Valid() && m.stallAfter == limit && m.saver.window == window
    ensures m.file.Alive? && m.looks == [] && m.View().saver.StaysOpen(late, window)
    ensures BusyPass(p, "d") && forall q <- LatePasses(p, late, limit) :: ValidPass(q)
  {
    var saver := new S.Manager(5, 120, window, true, true);
    m := new Manager(limit, saver);
    p := Pass(0, true, None, Some(["d"]), map["d" := Uploads(1, 0, 0, false, 0, 0, 0, "")], map[], true, true);
    late := S.Call(true, Some(S.Error("containers did not stop", false, false)), true, 1, 1, 1, 1,
                   Success([]), Success([]), None);
  }
}
