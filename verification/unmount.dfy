/** Waiting for the uploads of a disk before it is unmounted (Unmount and flushing of internal/disk/manager.go). */
module Unmount {
  import opened Wrappers
  import L = Lifecycle

  type Drive = string

  const UNMOUNT_GAP := 300

  // ----- how long a disk has been waiting -----

  /** When the last unbroken series of attempts began: a pause longer than the gap starts a new one. */
  function WaitingSince(times: seq<nat>): nat
    requires times != []
  {
    var n := |times|;
    if n == 1 || times[n - 1] - times[n - 2] > UNMOUNT_GAP then times[n - 1] else WaitingSince(times[..n - 1])
  }

  /** The clock does not go back. */
  predicate Ascending(times: seq<nat>) {
    forall i, j :: 0 <= i <= j < |times| ==> times[i] <= times[j]
  }

  predicate CloseTo(times: seq<nat>, i: nat)
    requires i + 1 < |times|
  {
    times[i + 1] - times[i] <= UNMOUNT_GAP
  }

  /** No two attempts in a row from the k-th on are further apart than the gap. */
  predicate Unbroken(times: seq<nat>, k: nat) {
    forall i: nat :: k <= i && i + 1 < |times| ==> CloseTo(times, i)
  }

  /** An unbroken series of attempts up to the last one spans the limit. */
  ghost predicate Overdue(times: seq<nat>, limit: nat) {
    exists k :: 0 <= k < |times| && Unbroken(times, k) && times[|times| - 1] - times[k] >= limit
  }

  lemma {:induction false} SinceIsSeries(times: seq<nat>) returns (k: nat)
    requires times != []
    ensures k < |times| && Unbroken(times, k) && WaitingSince(times) == times[k]
    ensures k > 0 ==> !CloseTo(times, k - 1)
  {
    var n := |times|;
    k := n - 1;
    if n > 1 && CloseTo(times, n - 2) {
      var before := times[..n - 1];
      k := SinceIsSeries(before);
      assert k > 0 ==> CloseTo(before, k - 1) == CloseTo(times, k - 1);
      forall i: nat | k <= i && i + 1 < n ensures CloseTo(times, i) {
        assert i < n - 2 ==> CloseTo(before, i);
      }
    }
  }

  /** The start of the wait that is kept up to date in one step is that of the longest unbroken series. */
  lemma OverdueMeaning(times: seq<nat>, limit: nat)
    requires times != [] && Ascending(times)
    ensures Overdue(times, limit) <==> times[|times| - 1] - WaitingSince(times) >= limit
  {
    var k := SinceIsSeries(times);
    if k > 0 {
      forall j | 0 <= j < k ensures !Unbroken(times, j) {
        assert !CloseTo(times, k - 1);
      }
    }
  }

  lemma WaitGoesOn(times: seq<nat>, now: nat)
    ensures WaitingSince(times + [now]) ==
            if times == [] || now - times[|times| - 1] > UNMOUNT_GAP then now else WaitingSince(times)
  {
    assert (times + [now])[..|times|] == times;
  }

  // ----- the history of attempts -----

  /** One call: its disk and time, and what systemd, the upload counters and the clean-up come to. */
  datatype Call = Call(
    drive: Drive,
    now: nat,
    active: Option<bool>,
    uploads: Option<L.Uploads>,
    stops: bool,
    dropsRemote: bool,
    removesUnit: bool,
    removesEnv: bool,
    reloads: bool)

  /** A call and whether it asked systemd to stop the unit. */
  datatype Entry = Entry(call: Call, asked: bool)

  /** When the unit was found active by the calls on the disk since its wait was last forgotten. */
  function Attempts(history: seq<Entry>, drive: Drive): seq<nat> {
    if history == [] then []
    else
      var last, before := history[|history| - 1], Attempts(history[..|history| - 1], drive);
      if last.call.drive != drive || last.call.active.None? then before
      else if !last.call.active.value || (last.asked && last.call.stops) then []
      else before + [last.call.now]
  }

  lemma AttemptsMore(history: seq<Entry>, last: Entry)
    ensures Attempts(history + [last], last.call.drive) ==
            if last.call.active.None? then Attempts(history, last.call.drive)
            else if !last.call.active.value || (last.asked && last.call.stops) then []
            else Attempts(history, last.call.drive) + [last.call.now]
  {
    assert (history + [last])[..|history|] == history;
  }

  /** Uploads are known to be over, or the disk has waited long enough. */
  ghost predicate MayStop(history: seq<Entry>, call: Call, limit: nat) {
    || (call.uploads.Some? && call.uploads.value.Pending() <= 0)
    || Overdue(Attempts(history, call.drive) + [call.now], limit)
  }

  /** A unit was stopped exactly when it was active and might be. */
  ghost predicate Justified(history: seq<Entry>, n: nat, limit: nat)
    requires n < |history|
  {
    history[n].asked <==> history[n].call.active == Some(true) && MayStop(history[..n], history[n].call, limit)
  }

  predicate InOrder(history: seq<Entry>, clock: nat) {
    && (forall i :: 0 <= i < |history| ==> history[i].call.now <= clock)
    && forall i, j :: 0 <= i <= j < |history| ==> history[i].call.now <= history[j].call.now
  }

  lemma {:induction false} AttemptsInOrder(history: seq<Entry>, drive: Drive, clock: nat)
    requires InOrder(history, clock)
    ensures Ascending(Attempts(history, drive))
    ensures forall i :: 0 <= i < |Attempts(history, drive)| ==> Attempts(history, drive)[i] <= clock
  {
    if history != [] {
      var n := |history|;
      AttemptsInOrder(history[..n - 1], drive, history[n - 1].call.now);
    }
  }

  ghost predicate WaitOk(waits: map<Drive, Wait>, history: seq<Entry>, d: Drive) {
    var times := Attempts(history, d);
    && (d in waits <==> times != [])
    && (times != [] ==> waits[d] == Wait(WaitingSince(times), times[|times| - 1]))
  }

  /** What the kept wait says of the attempts, and whether one more is overdue. */
  lemma WaitKept(waits: map<Drive, Wait>, history: seq<Entry>, d: Drive, clock: nat, now: nat, limit: nat)
    requires WaitOk(waits, history, d) && InOrder(history, clock) && now >= clock
    ensures var times := Attempts(history, d) + [now];
            && WaitingSince(times) == (if d !in waits || now - waits[d].seen > UNMOUNT_GAP then now else waits[d].since)
            && (Overdue(times, limit) <==> now - WaitingSince(times) >= limit)
  {
    AttemptsInOrder(history, d, clock);
    WaitGoesOn(Attempts(history, d), now);
    OverdueMeaning(Attempts(history, d) + [now], limit);
  }

  datatype Result = Unmounted | Flushing | Failed

  function CleanedUp(call: Call): Result {
    if call.dropsRemote && call.removesUnit && call.removesEnv && call.reloads then Unmounted else Failed
  }

  /** The unit is not active, or has just been stopped for a reason. */
  ghost predicate Released(history: seq<Entry>, call: Call, limit: nat) {
    call.active.Some? && (call.active.value ==> MayStop(history, call, limit) && call.stops)
  }

  datatype Wait = Wait(since: nat, seen: nat)

  class Manager {
    const flushLimit: nat
    var unmounting: map<Drive, Wait>
    var remotes: set<Drive>
    var units: set<Drive>
    var envs: set<Drive>
    ghost var history: seq<Entry>
    ghost var clock: nat

    /** The waits are those of the history, and every stop in it was justified. */
    ghost predicate Valid()
      reads this`history, this`clock, this`unmounting
    {
      && (forall d :: WaitOk(unmounting, history, d))
      && HistoryOk()
    }

    ghost predicate HistoryOk()
      reads this`history, this`clock
    {
      && InOrder(history, clock)
      && forall n :: 0 <= n < |history| ==> Justified(history, n, flushLimit)
    }

    constructor (flushLimit: nat, remotes: set<Drive>, units: set<Drive>, envs: set<Drive>)
      ensures Valid() && history == [] && this.flushLimit == flushLimit
    {
      this.flushLimit, this.remotes, this.units, this.envs := flushLimit, remotes, units, envs;
      unmounting, history, clock := map[], [], 0;
      new;
      assert forall d :: Attempts([], d) == [];
    }

    /** flushing: the wait goes on or begins anew, and past the limit the uploads are no longer asked for. */
    method StillFlushing(call: Call) returns (flushing: bool)
      requires Valid() && call.active == Some(true) && call.now >= clock
      modifies this`unmounting
      ensures flushing <==> !MayStop(history, call, flushLimit)
      ensures var times := Attempts(history, call.drive) + [call.now];
              unmounting == old(unmounting)[call.drive := Wait(WaitingSince(times), call.now)]
    {
      var d, now := call.drive, call.now;
      WaitKept(unmounting, history, d, clock, now, flushLimit);
      if d !in unmounting || now - unmounting[d].seen > UNMOUNT_GAP {
        unmounting := unmounting[d := Wait(now, now)];
      }
      unmounting := unmounting[d := unmounting[d].(seen := now)];
      if now - unmounting[d].since >= flushLimit {
        return false;
      }
      if call.uploads.None? {
        return true;
      }
      flushing := call.uploads.value.Pending() > 0;
    }

    /**
     * Unmount: an active unit is stopped exactly when the uploads were known to be zero in this very call, or attempts
     * on this disk no further apart than the gap have gone on for the limit. Other disks wait on undisturbed, and only
     * a disk that is not active any more loses its files.
     */
    method Unmount(call: Call) returns (result: Result)
      requires Valid() && call.now >= clock
      modifies this
      ensures Valid() && clock == call.now
      ensures |history| == |old(history)| + 1 && history[|old(history)|].call == call
      ensures history[..|old(history)|] == old(history)
      ensures result.Flushing? <==> call.active == Some(true) && !MayStop(old(history), call, flushLimit)
      ensures forall d :: d != call.drive ==> (d in unmounting <==> d in old(unmounting))
      ensures forall d :: d != call.drive && d in unmounting ==> unmounting[d] == old(unmounting[d])
      ensures var gone := Released(old(history), call, flushLimit);
              && (gone ==> result == CleanedUp(call))
              && (!gone ==> !result.Unmounted?)
              && remotes == old(remotes) - (if gone && call.dropsRemote then {call.drive} else {})
              && units == old(units) - (if gone && call.dropsRemote && call.removesUnit then {call.drive} else {})
              && envs == old(envs) -
                         (if gone && call.dropsRemote && call.removesUnit && call.removesEnv then {call.drive} else {})
      ensures call.active.None? || (call.active == Some(true) && (result.Flushing? || !call.stops)) ==>
                !result.Unmounted? && remotes == old(remotes) && units == old(units) && envs == old(envs)
      ensures result.Unmounted? ==> call.dropsRemote && call.removesUnit && call.removesEnv && call.reloads
      ensures result.Unmounted? ==> call.drive !in remotes && call.drive !in units && call.drive !in envs
    {
      var flushing := false;
      if call.active == Some(true) {
        flushing := StillFlushing(call);
      }
      ghost var entry := Entry(call, call.active == Some(true) && !flushing);
      result := Release(call, flushing);
      AttemptsMore(history, entry);
      assert WaitOk(old(unmounting), history, call.drive);
      Record(entry, old(unmounting));
    }

    /** What follows once it is known whether the disk still uploads: an idle or stopped unit loses its files. */
    method Release(call: Call, flushing: bool) returns (result: Result)
      requires flushing ==> call.active == Some(true)
      modifies this`unmounting, this`remotes, this`units, this`envs
      ensures var gone := call.active.Some? && (call.active.value ==> !flushing && call.stops);
              && result == (if flushing then Flushing else if gone then CleanedUp(call) else Failed)
              && unmounting == old(unmounting) - (if gone then {call.drive} else {})
              && remotes == old(remotes) - (if gone && call.dropsRemote then {call.drive} else {})
              && units == old(units) - (if gone && call.dropsRemote && call.removesUnit then {call.drive} else {})
              && envs == old(envs) -
                         (if gone && call.dropsRemote && call.removesUnit && call.removesEnv then {call.drive} else {})
      ensures call.active.None? || (call.active == Some(true) && (result.Flushing? || !call.stops)) ==>
                !result.Unmounted? && remotes == old(remotes) && units == old(units) && envs == old(envs)
      ensures result.Unmounted? ==> call.dropsRemote && call.removesUnit && call.removesEnv && call.reloads
      ensures result.Unmounted? ==> call.drive !in remotes && call.drive !in units && call.drive !in envs
    {
      if flushing {
        return Flushing;
      }
      if call.active.None? || (call.active.value && !call.stops) {
        return Failed;
      }
      unmounting := unmounting - {call.drive};
      result := CleanUp(call);
    }

    /** The files of a stopped disk go: the key first, then the unit and its environment. */
    method CleanUp(call: Call) returns (result: Result)
      modifies this`remotes, this`units, this`envs
      ensures result == CleanedUp(call)
      ensures remotes == old(remotes) - if call.dropsRemote then {call.drive} else {}
      ensures units == old(units) - if call.dropsRemote && call.removesUnit then {call.drive} else {}
      ensures envs == old(envs) - if call.dropsRemote && call.removesUnit && call.removesEnv then {call.drive} else {}
    {
      if !call.dropsRemote {
        return Failed;
      }
      remotes := remotes - {call.drive};
      if !call.removesUnit {
        return Failed;
      }
      units := units - {call.drive};
      if !call.removesEnv {
        return Failed;
      }
      envs := envs - {call.drive};
      result := if call.reloads then Unmounted else Failed;
    }

    /** The call joins the history. */
    ghost method Record(entry: Entry, before: map<Drive, Wait>)
      requires HistoryOk() && entry.call.now >= clock
      requires forall d :: WaitOk(before, history, d)
      requires forall d {:trigger d in before} {:trigger d in unmounting} :: d != entry.call.drive ==>
                 (d in unmounting <==> d in before) && (d in before ==> unmounting[d] == before[d])
      requires WaitOk(unmounting, history + [entry], entry.call.drive)
      requires entry.asked <==> entry.call.active == Some(true) && MayStop(history, entry.call, flushLimit)
      modifies this`history, this`clock
      ensures Valid() && history == old(history) + [entry] && clock == entry.call.now
    {
      var past := history;
      history, clock := history + [entry], entry.call.now;
      assert history[..|past|] == past;
      forall d ensures WaitOk(unmounting, history, d) {
        assert d != entry.call.drive ==> Attempts(history, d) == Attempts(past, d);
        assert WaitOk(before, past, d);
      }
      forall n | 0 <= n < |history| ensures Justified(history, n, flushLimit) {
        assert n < |past| ==> history[..n] == past[..n] && Justified(past, n, flushLimit);
      }
    }
  }
}
