/**
 * Downloading one file in eight parallel ranges (downloadRanged, downloadPart, progressWriter of
 * internal/content/manager.go).
 */
module Ranged {
  type Byte = bv8
  type Bytes = seq<Byte>

  const PARTS := 8
  const ATTEMPTS := 3

  /** The first byte of a part, and the one after its last. */
  function Start(size: nat, i: nat): nat {
    i * (size / PARTS)
  }

  function End(size: nat, i: nat): nat {
    if i == PARTS - 1 then size else Start(size, i) + size / PARTS
  }

  /** One part starts where the one before it ends. */
  lemma Adjacent(size: nat, i: nat)
    requires i < PARTS
    ensures Start(size, 0) == 0 && Start(size, i) <= End(size, i) <= size
    ensures i + 1 < PARTS ==> End(size, i) == Start(size, i + 1)
  {
    var chunk := size / PARTS;
    assert i * chunk <= (PARTS - 1) * chunk;
    assert i * chunk + chunk == (i + 1) * chunk;
    assert i + 1 < PARTS ==> (i + 1) * chunk <= (PARTS - 1) * chunk;
  }

  lemma {:induction false} Ordered(size: nat, i: nat, j: nat)
    requires i < j < PARTS
    ensures End(size, i) <= Start(size, j)
    decreases j
  {
    Adjacent(size, j - 1);
    if i < j - 1 {
      Ordered(size, i, j - 1);
    }
  }

  /** The part that a byte belongs to. */
  function Owner(size: nat, at: nat): (i: nat)
    requires at < size
    ensures i < PARTS
  {
    if size < PARTS || at / (size / PARTS) >= PARTS then PARTS - 1 else at / (size / PARTS)
  }

  /** The ranges partition the file: each byte is in the range of its owner and in no other, whatever the size. */
  lemma Partition(size: nat, at: nat, i: nat)
    requires at < size && i < PARTS
    ensures Start(size, i) <= at < End(size, i) <==> i == Owner(size, at)
  {
    var o := Owner(size, at);
    assert Start(size, o) <= at < End(size, o) by {
      if size >= PARTS {
        var chunk := size / PARTS;
        assert at == chunk * (at / chunk) + at % chunk && at % chunk < chunk;
        assert o <= at / chunk;
        assert o * chunk <= (at / chunk) * chunk;
      }
    }
    if i < o {
      Ordered(size, i, o);
    } else if o < i {
      Ordered(size, o, i);
    }
  }

  /** Where a part is: its next byte, the attempts it has ended, and how it is doing. */
  datatype Part = Part(pos: nat, ended: nat, status: Status)
  datatype Status = Running | Done | Failed

  /** How an attempt ends: the body ended, or there was a passing or a final error, perhaps before any byte. */
  datatype Ending = Eof | Transient | Permanent

  /**
   * What may happen next in some part: `bytes` of its body are written and counted; a write fails after that many
   * bytes, which stay uncounted; its attempt ends; or the whole download is cancelled from outside.
   */
  datatype Event =
    | Write(part: nat, count: nat)
    | ShortWrite(part: nat, count: nat)
    | Finish(part: nat, ending: Ending)
    | Cancel

  /** The bytes that the first n parts have fetched. */
  ghost function Fetched(size: nat, parts: seq<Part>, n: nat): int
    requires n <= |parts|
  {
    if n == 0 then 0 else Fetched(size, parts, n - 1) + parts[n - 1].pos - Start(size, n - 1)
  }

  lemma {:induction false} FetchedMore(size: nat, parts: seq<Part>, i: nat, part: Part, n: nat)
    requires i < |parts| && n <= |parts|
    ensures Fetched(size, parts[i := part], n) == Fetched(size, parts, n) + if i < n then part.pos - parts[i].pos else 0
  {
    if n > 0 {
      FetchedMore(size, parts, i, part, n - 1);
    }
  }

  lemma {:induction false} FetchedAll(size: nat, parts: seq<Part>, n: nat)
    requires |parts| == PARTS && 0 < n <= PARTS && forall i :: 0 <= i < PARTS ==> parts[i].pos == End(size, i)
    ensures Fetched(size, parts, n) == End(size, n - 1)
  {
    if n == 1 {
      assert Fetched(size, parts, 0) == 0;
    } else {
      FetchedAll(size, parts, n - 1);
      Adjacent(size, n - 2);
    }
  }

  function Min(a: nat, b: nat): nat {
    if a < b then a else b
  }

  /** Where all parts are, and whether the download is cancelled. */
  datatype Progress = Progress(parts: seq<Part>, cancelled: bool)

  /** A part that has all its bytes is done, however its attempt ended; else it goes on for as long as it may. */
  function Ended(size: nat, i: nat, part: Part, cancelled: bool, ending: Ending): Part {
    var ended := part.ended + 1;
    Part(part.pos, ended,
         if part.pos >= End(size, i) then Done
         else if cancelled || ending.Permanent? || ended >= ATTEMPTS then Failed
         else Running)
  }

  /** What an event does: bytes up to the end of a range, one more ended attempt, or a cancellation. */
  function Next(size: nat, p: Progress, event: Event): Progress {
    if event.Cancel? then p.(cancelled := true)
    else if event.part >= |p.parts| || !p.parts[event.part].status.Running? then p
    else
      var i, part := event.part, p.parts[event.part];
      if event.Finish? then
        var after := Ended(size, i, part, p.cancelled, event.ending);
        Progress(p.parts[i := after], p.cancelled || after.status.Failed?)
      else
        p.(parts := p.parts[i := part.(pos := Min(part.pos + event.count, End(size, i)))])
  }

  function After(size: nat, p: Progress, schedule: seq<Event>): Progress {
    if schedule == [] then p else Next(size, After(size, p, schedule[..|schedule| - 1]), schedule[|schedule| - 1])
  }

  function Begun(size: nat): Progress {
    Progress(seq(PARTS, i requires 0 <= i => Part(Start(size, i), 0, Running)), false)
  }

  /** Something that justifies giving up: a cancellation, a final error, or a part that has used up its attempts. */
  ghost predicate Blamed(events: seq<Event>, parts: seq<Part>) {
    || Cancel in events
    || (exists i: nat :: Finish(i, Permanent) in events)
    || (exists i: nat :: i < |parts| && parts[i].ended == 3)
  }

  datatype Result = Complete | Broken | Unfinished

  class Download {
    const size: nat
    const file: array<Byte>
    var parts: seq<Part>
    var cancelled: bool
    // The progress counter, and the bytes that failing writes have left out of it.
    var read: nat
    ghost var uncounted: nat

    ghost predicate PartOk(source: Bytes, i: nat)
      requires i < |parts| == PARTS && |source| == size == file.Length
      reads this, file
    {
      var p := parts[i];
      && Start(size, i) <= p.pos <= End(size, i) <= size
      && p.ended <= ATTEMPTS
      && (p.status.Running? ==> p.ended < ATTEMPTS)
      && (p.status.Done? ==> p.pos == End(size, i))
      && (p.status.Failed? ==> p.pos < End(size, i) && cancelled)
      && forall k :: Start(size, i) <= k < p.pos ==> file[k] == source[k]
    }

    ghost predicate Valid(source: Bytes)
      reads this, file
    {
      && |parts| == PARTS && |source| == size == file.Length
      && (forall i :: 0 <= i < PARTS ==> PartOk(source, i))
      && read + uncounted == Fetched(size, parts, PARTS)
    }

    constructor (size: nat, ghost source: Bytes)
      requires |source| == size
      ensures Valid(source) && this.size == size && fresh(file) && Progress(parts, cancelled) == Begun(size)
      ensures read == 0 && uncounted == 0 && !cancelled
    {
      this.size := size;
      file := new Byte[size](_ => 0);
      parts := seq(PARTS, i requires 0 <= i => Part(Start(size, i), 0, Running));
      cancelled, read, uncounted := false, 0, 0;
      new;
      forall i | 0 <= i < PARTS ensures PartOk(source, i) {
        Adjacent(size, i);
      }
      assert Fetched(size, parts, PARTS) == 0 by {
        forall n | 0 <= n <= PARTS ensures Fetched(size, parts, n) == 0 {
          NothingYet(size, parts, n);
        }
      }
    }

    /** The offset writer: these bytes of the source go to the same place in the file. */
    method WriteAt(source: Bytes, at: nat, count: nat)
      requires at + count <= file.Length == |source|
      modifies file
      ensures forall k :: at <= k < at + count ==> file[k] == source[k]
      ensures forall k :: 0 <= k < file.Length && !(at <= k < at + count) ==> file[k] == old(file[k])
    {
      for n := at to at + count
        invariant forall k :: at <= k < n ==> file[k] == source[k]
        invariant forall k :: 0 <= k < file.Length && !(at <= k < n) ==> file[k] == old(file[k])
      {
        file[n] := source[n];
      }
    }

    /**
     * downloadRange and the writer it copies into: the next bytes of the body go to the part's place in the file, and
     * the progress counter grows by them when the write succeeded. Nothing outside the part's own range changes.
     */
    method Copy(source: Bytes, i: nat, count: nat, whole: bool)
      requires Valid(source) && i < PARTS && parts[i].status.Running?
      requires parts[i].pos + count <= End(size, i)
      modifies this`parts, this`read, this`uncounted, file
      ensures Valid(source)
      ensures parts == old(parts)[i := old(parts[i]).(pos := old(parts[i].pos) + count)]
      ensures forall k :: 0 <= k < size && !(Start(size, i) <= k < End(size, i)) ==> file[k] == old(file[k])
      ensures read == if whole then old(read) + count else old(read)
      ensures uncounted == if whole then old(uncounted) else old(uncounted) + count
    {
      var from := parts[i].pos;
      assert PartOk(source, i);
      WriteAt(source, from, count);
      FetchedMore(size, parts, i, parts[i].(pos := from + count), PARTS);
      parts := parts[i := parts[i].(pos := from + count)];
      if whole {
        read := read + count;
      } else {
        uncounted := uncounted + count;
      }
      forall j | 0 <= j < PARTS ensures PartOk(source, j) {
        assert old(PartOk(source, j));
        Adjacent(size, j);
        if j < i {
          Ordered(size, j, i);
        } else if i < j {
          Ordered(size, i, j);
        }
      }
    }

    /**
     * downloadPart, after an attempt: a part that has all its bytes is done, however the attempt ended. One that fails
     * cancels the others.
     */
    method EndAttempt(ghost source: Bytes, i: nat, ending: Ending)
      requires Valid(source) && i < PARTS && parts[i].status.Running?
      modifies this`parts, this`cancelled
      ensures Valid(source)
      ensures var after := Ended(size, i, old(parts[i]), old(cancelled), ending);
              && parts == old(parts)[i := after] && cancelled == (old(cancelled) || after.status.Failed?)
              && after.ended <= ATTEMPTS && (after.status.Done? <==> after.pos == End(size, i))
    {
      assert PartOk(source, i);
      var p := parts[i].(ended := parts[i].ended + 1);
      if p.pos >= End(size, i) {
        p := p.(status := Done);
      } else if cancelled || ending.Permanent? || p.ended == ATTEMPTS {
        p := p.(status := Failed);
        cancelled := true;
      }
      FetchedMore(size, parts, i, p, PARTS);
      parts := parts[i := p];
      forall j | 0 <= j < PARTS ensures PartOk(source, j) {
        assert old(PartOk(source, j));
        assert j != i ==> parts[j] == old(parts)[j];
      }
    }

    /**
     * One event of some part. A body is a prefix of the requested range, however it is split, so a longer count is cut
     * to what the range still misses; an event of a part that has ended does nothing.
     */
    method Step(source: Bytes, event: Event)
      requires Valid(source)
      modifies this, file
      ensures Valid(source)
      ensures Progress(parts, cancelled) == Next(size, Progress(old(parts), old(cancelled)), event)
      ensures if event.ShortWrite? then read == old(read) else uncounted == old(uncounted)
    {
      if event.Cancel? {
        cancelled := true;
        forall i | 0 <= i < PARTS ensures PartOk(source, i) {
          assert old(PartOk(source, i));
        }
        return;
      }
      var i := event.part;
      if i >= PARTS || !parts[i].status.Running? {
        return;
      }
      if event.Finish? {
        EndAttempt(source, i, event.ending);
        assert PartOk(source, i);
      } else {
        assert PartOk(source, i);
        var missing := End(size, i) - parts[i].pos;
        Copy(source, i, if event.count < missing then event.count else missing, event.Write?);
      }
    }

    /** wg.Wait and the look at the errors. */
    method Outcome(ghost source: Bytes) returns (result: Result)
      requires Valid(source)
      ensures result.Complete? <==> forall i :: 0 <= i < PARTS ==> parts[i].status.Done?
      ensures result.Complete? ==> file[..] == source && read + uncounted == size
      ensures result.Broken? ==> cancelled && exists i :: 0 <= i < PARTS && parts[i].status.Failed?
      ensures result.Unfinished? ==> exists i :: 0 <= i < PARTS && parts[i].status.Running?
    {
      result := Complete;
      for i := 0 to PARTS
        invariant result.Complete? <==> forall j :: 0 <= j < i ==> parts[j].status.Done?
        invariant result.Broken? ==> cancelled && exists j :: 0 <= j < i && parts[j].status.Failed?
        invariant result.Unfinished? ==> exists j :: 0 <= j < i && parts[j].status.Running?
      {
        assert PartOk(source, i);
        if parts[i].status.Running? {
          result := Unfinished;
        } else if parts[i].status.Failed? && result.Complete? {
          result := Broken;
        }
      }
      if result.Complete? {
        forall i | 0 <= i < PARTS ensures parts[i].pos == End(size, i) {
          assert PartOk(source, i);
        }
        FetchedAll(size, parts, PARTS);
        forall k | 0 <= k < size ensures file[k] == source[k] {
          Partition(size, k, Owner(size, k));
          assert PartOk(source, Owner(size, k));
        }
      }
    }
  }

  lemma {:induction false} NothingYet(size: nat, parts: seq<Part>, n: nat)
    requires n <= |parts| && forall i :: 0 <= i < |parts| ==> parts[i].pos == Start(size, i)
    ensures Fetched(size, parts, n) == 0
  {
    if n > 0 {
      NothingYet(size, parts, n - 1);
    }
  }

  /** No event of the schedule is a failing write. */
  predicate WritesSucceed(schedule: seq<Event>) {
    forall n :: 0 <= n < |schedule| ==> !schedule[n].ShortWrite?
  }

  /**
   * downloadRanged: under any interleaving of the parts, any split of the bodies, any errors and any cancellation,
   * success means that the file is the source, and no part makes more than three attempts. The counted progress never
   * exceeds the size, and is the size after a success without a failing write. It gives up only for a reason.
   */
  method Run(source: Bytes, schedule: seq<Event>) returns (result: Result, d: Download)
    ensures fresh(d) && fresh(d.file) && d.Valid(source)
    ensures Progress(d.parts, d.cancelled) == After(|source|, Begun(|source|), schedule)
    ensures result.Complete? ==> d.file[..] == source
    ensures forall i :: 0 <= i < PARTS ==> d.parts[i].ended <= 3
    ensures d.read <= |source|
    ensures result.Complete? && WritesSucceed(schedule) ==> d.read == |source|
    ensures result.Broken? ==> Blamed(schedule, d.parts)
    ensures result.Complete? <==> forall i :: 0 <= i < PARTS ==> d.parts[i].status.Done?
  {
    d := new Download(|source|, source);
    for n := 0 to |schedule|
      invariant d.Valid(source) && fresh(d) && fresh(d.file)
      invariant Progress(d.parts, d.cancelled) == After(|source|, Begun(|source|), schedule[..n])
      invariant WritesSucceed(schedule[..n]) ==> d.uncounted == 0
    {
      ghost var events := schedule[..n + 1];
      assert schedule[..n] == events[..n] && events[n] == schedule[n];
      assert WritesSucceed(events) ==> WritesSucceed(schedule[..n]);
      d.Step(source, schedule[n]);
    }
    assert schedule[..|schedule|] == schedule;
    GivesUpForAReason(|source|, schedule);
    FetchedAtMost(d, source, PARTS);
    result := d.Outcome(source);
    forall i | 0 <= i < PARTS ensures d.parts[i].ended <= ATTEMPTS {
      assert d.PartOk(source, i);
    }
  }

  lemma {:induction false} FetchedAtMost(d: Download, source: Bytes, n: nat)
    requires d.Valid(source) && 0 < n <= PARTS
    ensures Fetched(d.size, d.parts, n) <= End(d.size, n - 1) <= d.size
  {
    assert d.PartOk(source, n - 1);
    if n == 1 {
      assert Fetched(d.size, d.parts, 0) == 0;
    } else {
      FetchedAtMost(d, source, n - 1);
      Adjacent(d.size, n - 2);
    }
  }

  predicate WithinAttempts(p: Progress) {
    |p.parts| == PARTS && forall i :: 0 <= i < PARTS && p.parts[i].status.Running? ==> p.parts[i].ended < ATTEMPTS
  }

  lemma NextBlamed(size: nat, p: Progress, event: Event, events: seq<Event>)
    requires WithinAttempts(p) && (p.cancelled ==> Blamed(events, p.parts))
    ensures var q := Next(size, p, event); WithinAttempts(q) && (q.cancelled ==> Blamed(events + [event], q.parts))
  {
    var q, more := Next(size, p, event), events + [event];
    assert event in more && forall e <- events :: e in more;
    if p.cancelled {
      if i: nat :| i < |p.parts| && p.parts[i].ended == ATTEMPTS {
        assert q.parts[i] == p.parts[i];
      } else if i: nat :| Finish(i, Permanent) in events {
        assert Finish(i, Permanent) in more;
      }
    } else if q.cancelled && event.Finish? {
      assert event.ending.Permanent? ==> event == Finish(event.part, Permanent);
      assert !event.ending.Permanent? ==> q.parts[event.part].ended == ATTEMPTS;
    }
  }

  /** The download is cancelled only by a cancellation, by a final error, or by a part that used up its attempts. */
  lemma {:induction false} GivesUpForAReason(size: nat, schedule: seq<Event>)
    ensures var p := After(size, Begun(size), schedule);
            WithinAttempts(p) && (p.cancelled ==> Blamed(schedule, p.parts))
  {
    if schedule != [] {
      var n := |schedule| - 1;
      GivesUpForAReason(size, schedule[..n]);
      NextBlamed(size, After(size, Begun(size), schedule[..n]), schedule[n], schedule[..n]);
      assert schedule[..n] + [schedule[n]] == schedule;
    }
  }

  /** Every part once: all of its bytes in one body that ends well. */
  function OneBodyEach(size: nat, n: nat): seq<Event> {
    if n == 0 then [] else OneBodyEach(size, n - 1) + [Write(n - 1, size)] + [Finish(n - 1, Eof)]
  }

  /** With bodies that bring everything, the download completes. */
  lemma {:induction false} FullBodiesComplete(size: nat, n: nat)
    requires n <= PARTS
    ensures var p := After(size, Begun(size), OneBodyEach(size, n));
            && !p.cancelled && |p.parts| == PARTS
            && (forall i :: 0 <= i < n ==> p.parts[i].status.Done?)
            && forall i :: n <= i < PARTS ==> p.parts[i] == Part(Start(size, i), 0, Running)
  {
    if n > 0 {
      FullBodiesComplete(size, n - 1);
      Adjacent(size, n - 1);
      var before := OneBodyEach(size, n - 1);
      var written := before + [Write(n - 1, size)];
      assert written[..|before|] == before;
      assert (written + [Finish(n - 1, Eof)])[..|written|] == written;
    }
  }
}
