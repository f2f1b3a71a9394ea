/**
 * What the content manager remembers of failed downloads (Reconcile, Stop, pass and fail of
 * internal/content/manager.go).
 */
module ContentRetry {
  import opened Wrappers
  import S = Save
  import T = Text

  type Target = string

  const FETCH_ATTEMPTS := 3

  datatype Task = Task(target: Target, name: string)

  datatype FetchFailure = FetchFailure(attempts: nat, next: int, permanent: bool, msg: string)

  datatype Outcome = Fetched | Broken(msg: string, final: bool)

  /** How fetching one task goes: its end, its outcome, and whether the pass has been cancelled by then. */
  datatype Fetch = Fetch(end: int, outcome: Outcome, cancelled: bool)

  datatype Observed = Ready | Error(messages: seq<string>) | Cancelled

  // ----- the history -----

  /** A new key has been taken, or an attempt of a pass begun at `start` has been completed. */
  datatype Event = Reset | Tried(target: Target, start: int, fetch: Fetch)

  /** The failed attempts on a target since the last reset, or since it was last fetched. */
  function Since(history: seq<Event>, target: Target): (tries: seq<Event>)
    ensures forall k :: 0 <= k < |tries| ==> tries[k].Tried? && tries[k].fetch.outcome.Broken?
  {
    if history == [] then []
    else
      var last, before := history[|history| - 1], Since(history[..|history| - 1], target);
      match last
      case Reset => []
      case Tried(t, _, fetch) =>
        if t != target then before else if fetch.outcome.Fetched? then [] else before + [last]
  }

  /** The wait before attempt k + 2: it doubles with every failure. */
  function Wait(base: nat, k: nat): nat {
    base * S.Pow2(k)
  }

  /** Attempts k and k + 1 of a series keep to the rules. */
  predicate InOrder(tries: seq<Event>, base: nat, k: nat)
    requires k + 1 < |tries|
    requires forall i :: 0 <= i < |tries| ==> tries[i].Tried? && tries[i].fetch.outcome.Broken?
  {
    !tries[k].fetch.outcome.final && tries[k + 1].start >= tries[k].fetch.end + Wait(base, k)
  }

  /** At most three attempts, each after the wait that its predecessor asks for, and none after a final failure. */
  ghost predicate Orderly(tries: seq<Event>, base: nat)
    requires forall i :: 0 <= i < |tries| ==> tries[i].Tried? && tries[i].fetch.outcome.Broken?
  {
    |tries| <= FETCH_ATTEMPTS && forall k: nat :: k + 1 < |tries| ==> InOrder(tries, base, k)
  }

  predicate AnyFinal(tries: seq<Event>)
    requires forall i :: 0 <= i < |tries| ==> tries[i].Tried? && tries[i].fetch.outcome.Broken?
  {
    exists k :: 0 <= k < |tries| && tries[k].fetch.outcome.final
  }

  /** What is remembered of a target is what its attempts say. */
  ghost predicate Remembered(failures: map<Target, FetchFailure>, target: Target, tries: seq<Event>, base: nat)
    requires forall i :: 0 <= i < |tries| ==> tries[i].Tried? && tries[i].fetch.outcome.Broken?
  {
    && (target in failures <==> tries != [])
    && (tries != [] ==>
          var f, last := failures[target], tries[|tries| - 1].fetch;
          && f.attempts == |tries|
          && f.msg == last.outcome.msg
          && (f.permanent <==> AnyFinal(tries) || |tries| >= FETCH_ATTEMPTS)
          && (!f.permanent ==> f.next == last.end + Wait(base, |tries| - 1)))
  }

  /** The target is not tried at this time: it has failed for good, or its wait is not over. */
  predicate Waiting(failures: map<Target, FetchFailure>, target: Target, now: int) {
    target in failures && (failures[target].permanent || now < failures[target].next)
  }

  /** What a failure leaves of what was remembered. */
  function NextFailure(before: Option<FetchFailure>, fetch: Fetch, base: nat): FetchFailure
    requires fetch.outcome.Broken?
  {
    var f := if before.Some? then before.value else FetchFailure(0, 0, false, "");
    var attempts := f.attempts + 1;
    if fetch.outcome.final || attempts >= FETCH_ATTEMPTS then FetchFailure(attempts, f.next, true, fetch.outcome.msg)
    else FetchFailure(attempts, fetch.end + Wait(base, f.attempts), f.permanent, fetch.outcome.msg)
  }

  /** The attempts that a pass makes on its first n tasks. */
  function Attempts(tasks: seq<Task>, failures: map<Target, FetchFailure>, now: int, fetch: nat -> Fetch, n: nat)
    : seq<Event>
    requires n <= |tasks|
  {
    if n == 0 then []
    else
      var before, target := Attempts(tasks, failures, now, fetch, n - 1), tasks[n - 1].target;
      if Waiting(failures, target, now) then before else before + [Tried(target, now, fetch(n - 1))]
  }

  /** The pass tries this task and finds itself cancelled then. */
  predicate CutAt(tasks: seq<Task>, failures: map<Target, FetchFailure>, now: int, fetch: nat -> Fetch, k: nat)
    requires k < |tasks|
  {
    !Waiting(failures, tasks[k].target, now) && fetch(k).cancelled
  }

  /** The pass comes to an end at the first task where it finds itself cancelled, or when all are done. */
  predicate EndsAt(tasks: seq<Task>, failures: map<Target, FetchFailure>, now: int, fetch: nat -> Fetch, n: nat) {
    && n <= |tasks|
    && (forall k | 0 <= k < n :: !CutAt(tasks, failures, now, fetch, k))
    && (n < |tasks| ==> CutAt(tasks, failures, now, fetch, n))
  }

  lemma AttemptsNext(tasks: seq<Task>, failures: map<Target, FetchFailure>, now: int, fetch: nat -> Fetch, i: nat)
    requires i < |tasks|
    ensures Attempts(tasks, failures, now, fetch, i + 1) ==
            Attempts(tasks, failures, now, fetch, i) +
            Attempt(tasks[i].target, Skipped(failures, tasks[i].target, now), now, fetch(i))
  {
  }

  function Attempt(target: Target, skipped: Option<FetchFailure>, now: int, fetch: Fetch): seq<Event> {
    if skipped.Some? then [] else [Tried(target, now, fetch)]
  }

  /** The failure that keeps a target from being tried. */
  function Skipped(failures: map<Target, FetchFailure>, target: Target, now: int): Option<FetchFailure> {
    if Waiting(failures, target, now) then Some(failures[target]) else None
  }

  /** What is remembered of the tasks, in their order. */
  function Messages(tasks: seq<Task>, failures: map<Target, FetchFailure>): seq<string> {
    if tasks == [] then []
    else Messages(tasks[..|tasks| - 1], failures) + Message(failures, tasks[|tasks| - 1].target)
  }

  function Message(failures: map<Target, FetchFailure>, target: Target): seq<string> {
    if target in failures then [failures[target].msg] else []
  }

  function Report(messages: seq<string>): Observed {
    if messages == [] then Ready else Error(messages)
  }

  predicate AllSkipped(failures: map<Target, FetchFailure>, tasks: seq<Task>, now: int) {
    forall i :: 0 <= i < |tasks| ==> Waiting(failures, tasks[i].target, now)
  }

  function Known(failures: map<Target, FetchFailure>, target: Target): Option<FetchFailure> {
    if target in failures then Some(failures[target]) else None
  }

  /** No target is due twice. */
  predicate DistinctDue(tasks: seq<Task>, failures: map<Target, FetchFailure>, now: int) {
    forall i, j | 0 <= i < j < |tasks| && Due(tasks, i, failures, now) && Due(tasks, j, failures, now) ::
      tasks[i].target != tasks[j].target
  }

  predicate Due(tasks: seq<Task>, i: nat, failures: map<Target, FetchFailure>, now: int)
    requires i < |tasks|
  {
    !Waiting(failures, tasks[i].target, now)
  }

  lemma {:induction false} MessagesKept(tasks: seq<Task>, a: map<Target, FetchFailure>, b: map<Target, FetchFailure>)
    requires forall i :: 0 <= i < |tasks| ==>
               && (tasks[i].target in a <==> tasks[i].target in b)
               && (tasks[i].target in a ==> a[tasks[i].target] == b[tasks[i].target])
    ensures Messages(tasks, a) == Messages(tasks, b)
  {
    if tasks != [] {
      MessagesKept(tasks[..|tasks| - 1], a, b);
    }
  }

  /** A target that is not waiting may be tried once more. */
  lemma OneMore(failures: map<Target, FetchFailure>, target: Target, tries: seq<Event>, base: nat, event: Event)
    requires forall i :: 0 <= i < |tries| ==> tries[i].Tried? && tries[i].fetch.outcome.Broken?
    requires event.Tried? && event.fetch.outcome.Broken?
    requires Remembered(failures, target, tries, base) && Orderly(tries, base)
    requires !Waiting(failures, target, event.start)
    ensures |tries| < FETCH_ATTEMPTS && Orderly(tries + [event], base)
  {
    var more := tries + [event];
    forall k: nat | k + 1 < |more|
      ensures InOrder(more, base, k)
    {
      assert k + 1 < |tries| ==> InOrder(tries, base, k);
    }
  }

  /**
   * In terms of the attempts made: a target may be tried when none has failed since it was last fetched or a new key
   * was taken, or when fewer than three have, none for good, and the doubled wait after the last one is over.
   */
  ghost predicate MayTry(tries: seq<Event>, base: nat, now: int)
    requires forall i :: 0 <= i < |tries| ==> tries[i].Tried? && tries[i].fetch.outcome.Broken?
  {
    tries != [] ==>
      && |tries| < 3 && (forall k | 0 <= k < |tries| :: !tries[k].fetch.outcome.final)
      && now >= tries[|tries| - 1].fetch.end + base * S.Pow2(|tries| - 1)
  }

  /** A pass tries every task that may be tried, in its turn, and no other. */
  lemma DueIsTried(history: seq<Event>, failures: map<Target, FetchFailure>, tasks: seq<Task>, now: int,
                   fetch: nat -> Fetch, i: nat, base: nat)
    requires i < |tasks| && Remembered(failures, tasks[i].target, Since(history, tasks[i].target), base)
    ensures Attempts(tasks, failures, now, fetch, i + 1) ==
            Attempts(tasks, failures, now, fetch, i) +
            if MayTry(Since(history, tasks[i].target), base, now) then [Tried(tasks[i].target, now, fetch(i))] else []
  {
    var tries := Since(history, tasks[i].target);
    assert tries != [] ==> (AnyFinal(tries) <==> exists k | 0 <= k < |tries| :: tries[k].fetch.outcome.final);
  }

  /** Whether it was waiting or not, one more failure is remembered as it should be. */
  lemma NextRemembered(failures: map<Target, FetchFailure>, target: Target, tries: seq<Event>, base: nat, event: Event)
    requires forall i :: 0 <= i < |tries| ==> tries[i].Tried? && tries[i].fetch.outcome.Broken?
    requires event.Tried? && event.fetch.outcome.Broken? && Remembered(failures, target, tries, base)
    ensures Remembered(failures[target := NextFailure(Known(failures, target), event.fetch, base)], target,
                       tries + [event], base)
  {
    var more := tries + [event];
    assert more[|tries|] == event;
    if AnyFinal(tries) {
      var k :| 0 <= k < |tries| && tries[k].fetch.outcome.final;
      assert more[k] == tries[k];
    }
    if AnyFinal(more) {
      var k :| 0 <= k < |more| && more[k].fetch.outcome.final;
      assert k < |tries| ==> more[k] == tries[k];
    }
  }

  /** Nothing but the failures of one target differs. */
  ghost predicate Only(before: map<Target, FetchFailure>, after: map<Target, FetchFailure>, target: Target) {
    forall t :: t != target ==> (t in after <==> t in before) && (t in after ==> after[t] == before[t])
  }

  /** What is remembered after the first n tasks of a pass. */
  function FailuresAfter(tasks: seq<Task>, failures: map<Target, FetchFailure>, now: int, fetch: nat -> Fetch,
                         base: nat, n: nat)
    : map<Target, FetchFailure>
    requires n <= |tasks|
  {
    if n == 0 then failures
    else
      var before, target := FailuresAfter(tasks, failures, now, fetch, base, n - 1), tasks[n - 1].target;
      if Waiting(failures, target, now) then before else FailuresNext(before, target, fetch(n - 1), base)
  }

  function FailuresNext(before: map<Target, FetchFailure>, target: Target, fetch: Fetch, base: nat)
    : map<Target, FetchFailure>
  {
    if fetch.outcome.Fetched? then before - {target}
    else before[target := NextFailure(Known(before, target), fetch, base)]
  }

  /** What a pass says of its first n tasks: the message that made it skip one, or that of its failure. */
  function Said(tasks: seq<Task>, failures: map<Target, FetchFailure>, now: int, fetch: nat -> Fetch, n: nat)
    : seq<string>
    requires n <= |tasks|
  {
    if n == 0 then []
    else Said(tasks, failures, now, fetch, n - 1) + Saying(Skipped(failures, tasks[n - 1].target, now), fetch(n - 1))
  }

  function Saying(skipped: Option<FetchFailure>, fetch: Fetch): seq<string> {
    if skipped.Some? then [skipped.value.msg] else if fetch.outcome.Broken? then [fetch.outcome.msg] else []
  }

  lemma {:induction false} WaitingIsKept(tasks: seq<Task>, failures: map<Target, FetchFailure>, now: int,
                                         fetch: nat -> Fetch, base: nat, n: nat, t: Target)
    requires n <= |tasks| && Waiting(failures, t, now)
    ensures var after := FailuresAfter(tasks, failures, now, fetch, base, n); t in after && after[t] == failures[t]
  {
    if n > 0 {
      WaitingIsKept(tasks, failures, now, fetch, base, n - 1, t);
    }
  }

  /** The last of n tasks leaves what is remembered of the others, and what is said of it is what is then remembered. */
  lemma SaidNext(tasks: seq<Task>, failures: map<Target, FetchFailure>, now: int, fetch: nat -> Fetch, base: nat,
                 n: nat, before: map<Target, FetchFailure>, after: map<Target, FetchFailure>)
    requires 0 < n <= |tasks| && DistinctDue(tasks, failures, now)
    requires before == FailuresAfter(tasks, failures, now, fetch, base, n - 1)
    requires after == FailuresAfter(tasks, failures, now, fetch, base, n)
    ensures Messages(tasks[..n - 1], before) == Messages(tasks[..n - 1], after)
    ensures Saying(Skipped(failures, tasks[n - 1].target, now), fetch(n - 1)) == Message(after, tasks[n - 1].target)
  {
    var t := tasks[n - 1].target;
    if Waiting(failures, t, now) {
      WaitingIsKept(tasks, failures, now, fetch, base, n - 1, t);
    } else {
      assert Due(tasks, n - 1, failures, now) && Only(before, after, t);
      forall k | 0 <= k < n - 1
        ensures tasks[k].target != t
      {
        assert Due(tasks, k, failures, now) ==> tasks[k].target != tasks[n - 1].target;
      }
    }
    MessagesKept(tasks[..n - 1], before, after);
  }

  /**
   * Without a target due twice, what a pass says is what is remembered when it ends, of every task and in their order.
   */
  lemma {:induction false} SaidIsRemembered(tasks: seq<Task>, failures: map<Target, FetchFailure>, now: int,
                                            fetch: nat -> Fetch, base: nat, n: nat)
    requires n <= |tasks| && DistinctDue(tasks, failures, now)
    ensures Said(tasks, failures, now, fetch, n) ==
            Messages(tasks[..n], FailuresAfter(tasks, failures, now, fetch, base, n))
  {
    if n > 0 {
      SaidIsRemembered(tasks, failures, now, fetch, base, n - 1);
      var before := FailuresAfter(tasks, failures, now, fetch, base, n - 1);
      var after := FailuresAfter(tasks, failures, now, fetch, base, n);
      SaidNext(tasks, failures, now, fetch, base, n, before, after);
      assert tasks[..n][..n - 1] == tasks[..n - 1];
    }
  }

  /**
   * Why targets must be distinct: a spec that names a new target twice has it tried twice in a pass, since both tasks
   * are looked at before the first is tried, and the second attempt comes before the wait that the first one asks for.
   */
  lemma TwiceInOnePass(target: Target, now: int, base: nat)
    requires base > 0
    ensures var fetch := Fetch(now, Broken("timeout", false), false);
            var twice := Attempts([Task(target, "a"), Task(target, "b")], map[], now, _ => fetch, 2);
            var first := NextFailure(None, fetch, base);
            && twice == [Tried(target, now, fetch), Tried(target, now, fetch)]
            && now < first.next && NextFailure(Some(first), fetch, base).attempts == 2
            && !Orderly(twice, base)
  {
    var fetch := Fetch(now, Broken("timeout", false), false);
    var tasks := [Task(target, "a"), Task(target, "b")];
    assert Attempts(tasks, map[], now, _ => fetch, 0) == [];
    assert Attempts(tasks, map[], now, _ => fetch, 1) == [Tried(target, now, fetch)];
    assert Wait(base, 0) == base;
    assert !InOrder([Tried(target, now, fetch), Tried(target, now, fetch)], base, 0);
  }

  // ----- exactly when a pass keeps to the rules -----

  /** What is remembered and what was tried before the pass fit together. */
  ghost predicate Consistent(history: seq<Event>, failures: map<Target, FetchFailure>, base: nat) {
    forall t :: Remembered(failures, t, Since(history, t), base) && Orderly(Since(history, t), base)
  }

  /** After the pass the attempts on every target are in order. */
  ghost predicate KeepsOrder(history: seq<Event>, tasks: seq<Task>, failures: map<Target, FetchFailure>, now: int,
                             fetch: nat -> Fetch, base: nat)
  {
    forall t :: Orderly(Since(history + Attempts(tasks, failures, now, fetch, |tasks|), t), base)
  }

  /** What the first n tasks make of the attempts on a target. */
  function SinceAfter(past: seq<Event>, tasks: seq<Task>, failures: map<Target, FetchFailure>, now: int,
                      fetch: nat -> Fetch, n: nat, t: Target): seq<Event>
    requires n <= |tasks|
  {
    if n == 0 then past
    else
      var before := SinceAfter(past, tasks, failures, now, fetch, n - 1, t);
      if !DueFor(tasks, n - 1, t, failures, now) then before
      else if fetch(n - 1).outcome.Fetched? then []
      else before + [Tried(t, now, fetch(n - 1))]
  }

  lemma SinceOneMore(history: seq<Event>, event: Event, t: Target)
    requires event.Tried?
    ensures Since(history + [event], t) ==
            if event.target != t then Since(history, t)
            else if event.fetch.outcome.Fetched? then []
            else Since(history, t) + [event]
  {
    assert (history + [event])[..|history|] == history;
  }

  /** The same, read off the attempts. */
  function Continued(past: seq<Event>, more: seq<Event>, t: Target): seq<Event>
    requires forall e <- more :: e.Tried?
  {
    if more == [] then past
    else
      var last, before := more[|more| - 1], Continued(past, more[..|more| - 1], t);
      if last.target != t then before else if last.fetch.outcome.Fetched? then [] else before + [last]
  }

  lemma {:induction false} SinceContinues(history: seq<Event>, more: seq<Event>, t: Target)
    requires forall e <- more :: e.Tried?
    ensures Since(history + more, t) == Continued(Since(history, t), more, t)
  {
    if more == [] {
      assert history + more == history;
    } else {
      assert more[|more| - 1] in more;
      assert (history + more)[..|history + more| - 1] == history + more[..|more| - 1];
      SinceContinues(history, more[..|more| - 1], t);
    }
  }

  lemma ContinuedNext(past: seq<Event>, before: seq<Event>, event: Event, t: Target)
    requires (forall e <- before :: e.Tried?) && event.Tried?
    ensures forall e <- before + [event] :: e.Tried?
    ensures Continued(past, before + [event], t) ==
            if event.target != t then Continued(past, before, t)
            else if event.fetch.outcome.Fetched? then []
            else Continued(past, before, t) + [event]
  {
    assert (before + [event])[..|before|] == before;
  }

  lemma {:induction false} ContinuedAfter(past: seq<Event>, tasks: seq<Task>, failures: map<Target, FetchFailure>,
                                          now: int, fetch: nat -> Fetch, n: nat, t: Target)
    requires n <= |tasks|
    ensures forall e <- Attempts(tasks, failures, now, fetch, n) :: e.Tried?
    ensures Continued(past, Attempts(tasks, failures, now, fetch, n), t) ==
            SinceAfter(past, tasks, failures, now, fetch, n, t)
  {
    if n > 0 {
      ContinuedAfter(past, tasks, failures, now, fetch, n - 1, t);
      var before, target := Attempts(tasks, failures, now, fetch, n - 1), tasks[n - 1].target;
      if Due(tasks, n - 1, failures, now) {
        ContinuedNext(past, before, Tried(target, now, fetch(n - 1)), t);
      }
    }
  }

  lemma SinceIsSinceAfter(history: seq<Event>, tasks: seq<Task>, failures: map<Target, FetchFailure>, now: int,
                          fetch: nat -> Fetch, n: nat, t: Target)
    requires n <= |tasks|
    ensures Since(history + Attempts(tasks, failures, now, fetch, n), t) ==
            SinceAfter(Since(history, t), tasks, failures, now, fetch, n, t)
  {
    ContinuedAfter(Since(history, t), tasks, failures, now, fetch, n, t);
    SinceContinues(history, Attempts(tasks, failures, now, fetch, n), t);
  }

  predicate DueFor(tasks: seq<Task>, k: nat, t: Target, failures: map<Target, FetchFailure>, now: int)
    requires k < |tasks|
  {
    tasks[k].target == t && Due(tasks, k, failures, now)
  }

  /** Without a target due twice, a pass adds at most one attempt to those on a target. */
  lemma {:induction false} SinceOnce(past: seq<Event>, tasks: seq<Task>, failures: map<Target, FetchFailure>, now: int,
                                     fetch: nat -> Fetch, n: nat, t: Target) returns (k: nat)
    requires n <= |tasks| && DistinctDue(tasks, failures, now)
    ensures var tries := SinceAfter(past, tasks, failures, now, fetch, n, t);
            && k <= n
            && (k == n ==> tries == past && forall i | 0 <= i < n :: !DueFor(tasks, i, t, failures, now))
            && (k < n ==>
                  && DueFor(tasks, k, t, failures, now)
                  && tries == if fetch(k).outcome.Fetched? then [] else past + [Tried(t, now, fetch(k))])
  {
    k := n;
    if n > 0 {
      k := SinceOnce(past, tasks, failures, now, fetch, n - 1, t);
      if DueFor(tasks, n - 1, t, failures, now) {
        assert k == n - 1;
      } else if k == n - 1 {
        k := n;
      }
    }
  }

  lemma DistinctKeepsOrder(history: seq<Event>, tasks: seq<Task>, failures: map<Target, FetchFailure>, now: int,
                           fetch: nat -> Fetch, base: nat, n: nat, t: Target)
    requires Consistent(history, failures, base) && DistinctDue(tasks, failures, now) && n <= |tasks|
    ensures Orderly(Since(history + Attempts(tasks, failures, now, fetch, n), t), base)
  {
    SinceIsSinceAfter(history, tasks, failures, now, fetch, n, t);
    var k := SinceOnce(Since(history, t), tasks, failures, now, fetch, n, t);
    assert Remembered(failures, t, Since(history, t), base) && Orderly(Since(history, t), base);
    if k < n && fetch(k).outcome.Broken? {
      OneMore(failures, t, Since(history, t), base, Tried(t, now, fetch(k)));
    }
  }

  /** At every point of the history the attempts on every target were in order. */
  ghost predicate AlwaysInOrder(history: seq<Event>, base: nat) {
    forall n, t {:trigger Since(history[..n], t)} :: 0 <= n <= |history| ==> Orderly(Since(history[..n], t), base)
  }

  lemma OrderedOneMore(history: seq<Event>, event: Event, base: nat)
    requires AlwaysInOrder(history, base) && forall t :: Orderly(Since(history + [event], t), base)
    ensures AlwaysInOrder(history + [event], base)
  {
    var more := history + [event];
    forall n, t | 0 <= n <= |more|
      ensures Orderly(Since(more[..n], t), base)
    {
      if n <= |history| {
        assert more[..n] == history[..n];
      } else {
        assert more[..n] == more;
      }
    }
  }

  /** Without a target due twice, a pass stays in order at every point, wherever it is cut short. */
  lemma {:induction false} PassKeepsOrder(history: seq<Event>, tasks: seq<Task>, failures: map<Target, FetchFailure>,
                                          now: int, fetch: nat -> Fetch, base: nat, n: nat)
    requires n <= |tasks| && DistinctDue(tasks, failures, now) && AlwaysInOrder(history, base)
    requires forall t :: Remembered(failures, t, Since(history, t), base)
    ensures AlwaysInOrder(history + Attempts(tasks, failures, now, fetch, n), base)
  {
    assert Consistent(history, failures, base) by {
      forall t
        ensures Remembered(failures, t, Since(history, t), base) && Orderly(Since(history, t), base)
      {
        assert history[..|history|] == history;
        assert Orderly(Since(history[..|history|], t), base);
      }
    }
    if n == 0 {
      assert history + Attempts(tasks, failures, now, fetch, 0) == history;
    } else {
      PassKeepsOrder(history, tasks, failures, now, fetch, base, n - 1);
      var tried, target := Attempts(tasks, failures, now, fetch, n - 1), tasks[n - 1].target;
      if Due(tasks, n - 1, failures, now) {
        var event := Tried(target, now, fetch(n - 1));
        T.ConcatAssociates(history, tried, [event]);
        forall t
          ensures Orderly(Since((history + tried) + [event], t), base)
        {
          DistinctKeepsOrder(history, tasks, failures, now, fetch, base, n, t);
        }
        OrderedOneMore(history + tried, event, base);
      }
    }
  }

  /** When every fetch fails at once, all that is added is the same attempt over and over. */
  lemma {:induction false} FailingGrows(past: seq<Event>, tasks: seq<Task>, failures: map<Target, FetchFailure>,
                                        now: int, fetch: nat -> Fetch, fails: Fetch, m: nat, n: nat, t: Target)
    requires fails.outcome.Broken? && (forall k :: fetch(k) == fails) && m <= n <= |tasks|
    ensures var tries := SinceAfter(past, tasks, failures, now, fetch, n, t);
            && |past| <= |SinceAfter(past, tasks, failures, now, fetch, m, t)| <= |tries|
            && forall k | |past| <= k < |tries| :: tries[k] == Tried(t, now, fails)
    decreases n
  {
    if n > 0 {
      FailingGrows(past, tasks, failures, now, fetch, fails, if m < n then m else n - 1, n - 1, t);
    }
  }

  /**
   * Exactly when a pass keeps three attempts, waits and finality, whatever the fetches come to: when no target occurs
   * twice among the tasks that are not waiting.
   */
  lemma PassNeedsDistinct(history: seq<Event>, tasks: seq<Task>, failures: map<Target, FetchFailure>, now: int,
                          base: nat)
    requires Consistent(history, failures, base) && base > 0
    ensures DistinctDue(tasks, failures, now) <==>
            forall fetch: nat -> Fetch :: KeepsOrder(history, tasks, failures, now, fetch, base)
  {
    if DistinctDue(tasks, failures, now) {
      forall fetch: nat -> Fetch
        ensures KeepsOrder(history, tasks, failures, now, fetch, base)
      {
        forall t
          ensures Orderly(Since(history + Attempts(tasks, failures, now, fetch, |tasks|), t), base)
        {
          DistinctKeepsOrder(history, tasks, failures, now, fetch, base, |tasks|, t);
        }
      }
    } else {
      var i, j :| 0 <= i < j < |tasks| && Due(tasks, i, failures, now) && Due(tasks, j, failures, now) &&
                  tasks[i].target == tasks[j].target;
      TwiceDueBreaksOrder(history, tasks, failures, now, base, i, j);
    }
  }

  lemma TwiceDueBreaksOrder(history: seq<Event>, tasks: seq<Task>, failures: map<Target, FetchFailure>, now: int,
                            base: nat, i: nat, j: nat)
    requires base > 0 && i < j < |tasks| && tasks[i].target == tasks[j].target
    requires Due(tasks, i, failures, now) && Due(tasks, j, failures, now)
    ensures exists fetch: nat -> Fetch :: !KeepsOrder(history, tasks, failures, now, fetch, base)
  {
    var t, fails := tasks[i].target, Fetch(now, Broken("timeout", false), false);
    var fetch: nat -> Fetch := _ => fails;
    var past, tries := Since(history, t), Since(history + Attempts(tasks, failures, now, fetch, |tasks|), t);
    SinceIsSinceAfter(history, tasks, failures, now, fetch, |tasks|, t);
    FailingGrows(past, tasks, failures, now, fetch, fails, 0, i, t);
    FailingGrows(past, tasks, failures, now, fetch, fails, i + 1, j, t);
    FailingGrows(past, tasks, failures, now, fetch, fails, j + 1, |tasks|, t);
    assert |tries| >= |past| + 2;
    assert base * S.Pow2(|past|) > 0;
    assert !InOrder(tries, base, |past|);
    assert !KeepsOrder(history, tasks, failures, now, fetch, base);
  }

  class Manager {
    const retryBase: nat
    var key: string
    var failures: map<Target, FetchFailure>
    ghost var history: seq<Event>

    /** The failures are what the history says. */
    ghost predicate Valid()
      reads this`failures, this`history
    {
      forall t :: Remembered(failures, t, Since(history, t), retryBase)
    }

    constructor (retryBase: nat)
      ensures Valid() && key == "" && history == [] && AlwaysInOrder(history, retryBase) && this.retryBase == retryBase
    {
      this.retryBase, key, failures, history := retryBase, "", map[], [];
      new;
      assert forall t :: Since([], t) == [];
      forall n, t | 0 <= n <= |history|
        ensures Orderly(Since(history[..n], t), retryBase)
      {
        assert history[..n] == [];
      }
    }

    /** fail: one more failure of the target; the third is final. */
    method Fail(target: Target, start: int, fetch: Fetch)
      requires Valid() && fetch.outcome.Broken?
      modifies this`failures, this`history
      ensures Valid() && history == old(history) + [Tried(target, start, fetch)]
      ensures failures == FailuresNext(old(failures), target, fetch, retryBase)
    {
      var f := if target in failures then failures[target] else FetchFailure(0, 0, false, "");
      f := f.(attempts := f.attempts + 1, msg := fetch.outcome.msg);
      if fetch.outcome.final || f.attempts >= FETCH_ATTEMPTS {
        f := f.(permanent := true);
      } else {
        f := f.(next := fetch.end + Wait(retryBase, f.attempts - 1));
      }
      assert Remembered(failures, target, Since(history, target), retryBase);
      NextRemembered(failures, target, Since(history, target), retryBase, Tried(target, start, fetch));
      failures := failures[target := f];
      Record(Tried(target, start, fetch), old(failures));
    }

    /** The attempt joins the history. */
    ghost method Record(event: Event, before: map<Target, FetchFailure>)
      requires forall t :: Remembered(before, t, Since(history, t), retryBase)
      requires event.Tried? && Only(before, failures, event.target)
      requires Remembered(failures, event.target,
                          if event.fetch.outcome.Fetched? then []
                          else Since(history, event.target) + [event], retryBase)
      modifies this`history
      ensures Valid() && history == old(history) + [event]
    {
      var past := history;
      history := history + [event];
      forall t
        ensures Remembered(failures, t, Since(history, t), retryBase)
      {
        assert Remembered(before, t, Since(past, t), retryBase);
        SinceOneMore(past, event, t);
      }
    }

    /** A fetched target has no failures any more. */
    method Forget(target: Target, start: int, fetch: Fetch)
      requires Valid() && fetch.outcome.Fetched?
      modifies this`failures, this`history
      ensures Valid() && history == old(history) + [Tried(target, start, fetch)]
      ensures failures == FailuresNext(old(failures), target, fetch, retryBase)
    {
      failures := failures - {target};
      Record(Tried(target, start, fetch), old(failures));
    }

    /** The tasks to skip, decided for all of them at one time. */
    method Look(tasks: seq<Task>, now: int) returns (skip: seq<Option<FetchFailure>>, queued: nat)
      ensures |skip| == |tasks| && forall j :: 0 <= j < |tasks| ==> skip[j] == Skipped(failures, tasks[j].target, now)
      ensures queued == 0 <==> AllSkipped(failures, tasks, now)
    {
      skip, queued := [], 0;
      for i := 0 to |tasks|
        invariant |skip| == i
        invariant forall j :: 0 <= j < i ==> skip[j] == Skipped(failures, tasks[j].target, now)
        invariant queued == 0 <==> forall j :: 0 <= j < i ==> skip[j].Some?
      {
        skip := skip + [Skipped(failures, tasks[i].target, now)];
        if skip[i].None? {
          queued := queued + 1;
        }
      }
    }

    /** One task of a pass: skipped, cancelled, or tried. */
    method Handle(target: Target, skipped: Option<FetchFailure>, now: int, fetch: Fetch)
      returns (messages: seq<string>, cancelled: bool)
      requires Valid()
      modifies this`failures, this`history
      ensures Valid()
      ensures cancelled <==> skipped.None? && fetch.cancelled
      ensures cancelled || skipped.Some? ==> failures == old(failures) && history == old(history)
      ensures !cancelled ==>
                && messages == Saying(skipped, fetch)
                && history == old(history) + Attempt(target, skipped, now, fetch)
      ensures !cancelled && skipped.None? ==> failures == FailuresNext(old(failures), target, fetch, retryBase)
    {
      messages, cancelled := [], false;
      if skipped.Some? {
        messages := [skipped.value.msg];
      } else if fetch.cancelled {
        cancelled := true;
      } else if fetch.outcome.Broken? {
        Fail(target, now, fetch);
        messages := [fetch.outcome.msg];
      } else {
        Forget(target, now, fetch);
      }
    }

    /**
     * pass: the tasks that need not wait are tried in their order, at one look at the clock, up to a cancellation; what
     * is remembered, reported and tried is all determined. As long as no target is due twice, the attempts stay in
     * order, and a completed pass reports what is remembered of every task, whether it was tried or not.
     */
    method Pass(tasks: seq<Task>, earlier: seq<string>, now: int, fetch: nat -> Fetch)
      returns (observed: Observed, attempted: bool, ghost done: nat)
      requires Valid()
      modifies this`failures, this`history
      ensures Valid()
      ensures EndsAt(tasks, old(failures), now, fetch, done)
      ensures history == old(history) + Attempts(tasks, old(failures), now, fetch, done)
      ensures failures == FailuresAfter(tasks, old(failures), now, fetch, retryBase, done)
      ensures observed.Cancelled? <==> done < |tasks|
      ensures observed.Cancelled? ==> !attempted
      ensures !observed.Cancelled? ==>
                && observed == Report(earlier + Said(tasks, old(failures), now, fetch, |tasks|))
                && (attempted <==> !AllSkipped(old(failures), tasks, now))
      ensures DistinctDue(tasks, old(failures), now) && AlwaysInOrder(old(history), retryBase) ==>
                AlwaysInOrder(history, retryBase)
      ensures DistinctDue(tasks, old(failures), now) && !observed.Cancelled? ==>
                observed == Report(earlier + Messages(tasks, failures))
    {
      ghost var first, past := failures, history;
      observed, attempted, done := TryAll(tasks, earlier, now, fetch);
      if DistinctDue(tasks, first, now) {
        if AlwaysInOrder(past, retryBase) {
          PassKeepsOrder(past, tasks, first, now, fetch, retryBase, done);
        }
        SaidIsRemembered(tasks, first, now, fetch, retryBase, |tasks|);
        assert tasks[..|tasks|] == tasks;
      }
    }

    /** The loops of pass. */
    method TryAll(tasks: seq<Task>, earlier: seq<string>, now: int, fetch: nat -> Fetch)
      returns (observed: Observed, attempted: bool, ghost done: nat)
      requires Valid()
      modifies this`failures, this`history
      ensures Valid()
      ensures EndsAt(tasks, old(failures), now, fetch, done)
      ensures history == old(history) + Attempts(tasks, old(failures), now, fetch, done)
      ensures failures == FailuresAfter(tasks, old(failures), now, fetch, retryBase, done)
      ensures observed.Cancelled? <==> done < |tasks|
      ensures observed.Cancelled? ==> !attempted
      ensures !observed.Cancelled? ==>
                && observed == Report(earlier + Said(tasks, old(failures), now, fetch, |tasks|))
                && (attempted <==> !AllSkipped(old(failures), tasks, now))
    {
      ghost var first, past := failures, history;
      var skip, queued := Look(tasks, now);
      var messages := earlier;
      attempted := queued > 0;
      for i := 0 to |tasks|
        invariant Valid()
        invariant history == past + Attempts(tasks, first, now, fetch, i)
        invariant failures == FailuresAfter(tasks, first, now, fetch, retryBase, i)
        invariant messages == earlier + Said(tasks, first, now, fetch, i)
        invariant forall k | 0 <= k < i :: !CutAt(tasks, first, now, fetch, k)
      {
        var more, cancelled := Handle(tasks[i].target, skip[i], now, fetch(i));
        if cancelled {
          return Cancelled, false, i;
        }
        T.ConcatAssociates(earlier, Said(tasks, first, now, fetch, i), more);
        AttemptsNext(tasks, first, now, fetch, i);
        T.ConcatAssociates(past, Attempts(tasks, first, now, fetch, i),
                           Attempt(tasks[i].target, skip[i], now, fetch(i)));
        messages := messages + more;
      }
      observed, done := Report(messages), |tasks|;
    }

    /**
     * Reconcile: a new key forgets all failures, so that every task is tried at once; under the same key a pass that is
     * still running is left alone.
     */
    method Reconcile(newKey: string, busy: bool, tasks: seq<Task>, earlier: seq<string>, now: int, fetch: nat -> Fetch)
      returns (observed: Option<Observed>, ghost done: nat)
      requires Valid() && newKey != ""
      modifies this
      ensures Valid() && key == newKey
      ensures newKey == old(key) && busy <==> observed.None?
      ensures observed.None? ==> history == old(history) && failures == old(failures)
      ensures done <= |tasks|
      ensures observed.Some? ==>
                var start := if newKey == old(key) then old(history) else old(history) + [Reset];
                var known := if newKey == old(key) then old(failures) else map[];
                && EndsAt(tasks, known, now, fetch, done)
                && history == start + Attempts(tasks, known, now, fetch, done)
                && failures == FailuresAfter(tasks, known, now, fetch, retryBase, done)
                && (observed.value.Cancelled? <==> done < |tasks|)
                && (done == |tasks| ==> observed.value == Report(earlier + Said(tasks, known, now, fetch, |tasks|)))
      ensures var known := if newKey == old(key) then old(failures) else map[];
              DistinctDue(tasks, known, now) ==>
                && (AlwaysInOrder(old(history), retryBase) ==> AlwaysInOrder(history, retryBase))
                && (observed.Some? && observed.value.Error? ==>
                    observed.value.messages == earlier + Messages(tasks, failures))
                && (observed.Some? && observed.value.Ready? ==>
                      earlier == [] && forall i :: 0 <= i < |tasks| ==> tasks[i].target !in failures)
    {
      var running := busy;
      if newKey != key {
        Clear();
        key, running := newKey, false;
      }
      if running {
        return None, 0;
      }
      ghost var known := failures;
      var result, attempted;
      result, attempted, done := Pass(tasks, earlier, now, fetch);
      observed := Some(result);
      if DistinctDue(tasks, known, now) && result.Ready? {
        NothingRemembered(tasks, failures);
      }
    }

    method Clear()
      requires Valid()
      modifies this`failures, this`history
      ensures Valid() && failures == map[] && history == old(history) + [Reset]
      ensures AlwaysInOrder(old(history), retryBase) ==> AlwaysInOrder(history, retryBase)
    {
      ghost var past := history;
      failures, history := map[], history + [Reset];
      assert history[..|past|] == past;
      assert forall t :: Since(history, t) == [];
      if AlwaysInOrder(past, retryBase) {
        OrderedOneMore(past, Reset, retryBase);
      }
    }

    /** Stop: the next spec finds another key than its own, whatever it is. */
    method Stop()
      requires Valid()
      modifies this`key
      ensures Valid() && key == ""
    {
      key := "";
    }
  }

  lemma {:induction false} NothingRemembered(tasks: seq<Task>, failures: map<Target, FetchFailure>)
    requires Messages(tasks, failures) == []
    ensures forall i :: 0 <= i < |tasks| ==> tasks[i].target !in failures
  {
    if tasks != [] {
      NothingRemembered(tasks[..|tasks| - 1], failures);
    }
  }
}
