/**
 * Downloading one archive in resumable attempts (download, fetchArchive, fetchVerified of internal/state/manager.go).
 */
module Download {
  import S = Save

  type Bytes = S.Bytes

  /**
   * What an attempt gets: no response, or a status, where its Content-Range starts, the bytes of its body, and whether
   * the body ends there with an error.
   */
  datatype Response = NoResponse | Response(code: int, rangeStart: int, body: Bytes, cut: bool)

  /** What the server answers to the n-th attempt when it is asked for the bytes from `have` on. */
  type Server = (nat, nat) -> Response

  /**
   * Sections 15.3.1 and 15.3.7 of RFC 9110: a 200 body is the archive, a matching 206 body its rest, each perhaps cut.
   */
  ghost predicate Honest(server: Server, archive: Bytes) {
    forall attempt, have :: HonestAt(server, archive, attempt, have)
  }

  predicate HonestAt(server: Server, archive: Bytes, attempt: nat, have: nat) {
    var r := server(attempt, have);
    && (r.Response? && r.code == 200 ==> r.body <= archive)
    && (r.Response? && r.code == 206 && r.rangeStart == have && have <= |archive| ==> r.body <= archive[have..])
  }

  /** Every attempt gets at least one more byte, continuing where the file ends. */
  ghost predicate AlwaysResumes(server: Server, archive: Bytes) {
    forall attempt, have :: ResumesAt(server, archive, attempt, have)
  }

  predicate ResumesAt(server: Server, archive: Bytes, attempt: nat, have: nat) {
    have < |archive| ==>
      var r := server(attempt, have);
      && r.Response? && r.body <= archive[have..] && |r.body| > 0
      && (if have == 0 then r.code == 200 else r.code == 206 && r.rangeStart == have)
  }

  datatype Result = Done | Again | Refused | TooLarge

  /** Client errors end the download, except a request timeout and too many requests. */
  predicate IsFinalCode(code: int) {
    400 <= code < 500 && code != 408 && code != 416 && code != 429
  }

  // ----- what attempts come to -----

  /** What an attempt keeps of the file it finds: all of it, or nothing when it is longer than declared. */
  function Kept(size: nat, file: Bytes): Bytes {
    if |file| > size then [] else file
  }

  /** The file and the result after one attempt that gets this response. */
  function OneAttempt(size: nat, file: Bytes, r: Response): (Bytes, Result) {
    var kept := Kept(size, file);
    if |kept| == size then (kept, Done)
    else if r.NoResponse? then (kept, Again)
    else if r.code == 206 && kept != [] && r.rangeStart == |kept| then WithBody(size, kept, r)
    else if r.code == 200 then WithBody(size, [], r)
    else if r.code == 206 || r.code == 416 then ([], Again)
    else if IsFinalCode(r.code) then (kept, Refused)
    else (kept, Again)
  }

  function WithBody(size: nat, kept: Bytes, r: Response): (Bytes, Result)
    requires r.Response?
  {
    var file := kept + r.body;
    if |file| > size then ([], TooLarge)
    else if |file| < size || r.cut then (file, Again)
    else (file, Done)
  }

  /**
   * What the status codes mean for a file that is not yet complete. A 206 for the bytes asked for continues it and a
   * 200 begins it anew; any other 206, and a 416, empties it for another try; a client error other than 408, 416 and
   * 429 ends the download; everything else, server errors above all, leaves the file for another try.
   */
  lemma CodesMeaning(size: nat, file: Bytes, code: int, rangeStart: int, body: Bytes, cut: bool)
    requires |file| < size
    ensures var got := OneAttempt(size, file, Response(code, rangeStart, body, cut));
            && (code == 206 && file != [] && rangeStart == |file| ==> Brings(size, file + body, cut, got))
            && (code == 200 ==> Brings(size, body, cut, got))
            && (code == 206 && (file == [] || rangeStart != |file|) ==> got == ([], Again))
            && (code == 416 ==> got == ([], Again))
            && (400 <= code <= 499 && code !in {408, 416, 429} ==> got == (file, Refused))
            && (code == 408 || code == 429 || code >= 500 || code < 200 || 200 < code < 206 || 206 < code < 400 ==>
                got == (file, Again))
    ensures OneAttempt(size, file, NoResponse) == (file, Again)
  {
    assert [] + body == body;
  }

  /** A body that leaves this much: too long, still short or cut, or whole. */
  predicate Brings(size: nat, whole: Bytes, cut: bool, got: (Bytes, Result)) {
    && (|whole| > size ==> got == ([], TooLarge))
    && (|whole| < size || (|whole| == size && cut) ==> got == (whole, Again))
    && (|whole| == size && !cut ==> got == (whole, Done))
  }

  /** The file after n attempts, and the result of the last of them. */
  function AfterAttempts(size: nat, file: Bytes, server: Server, n: nat): (Bytes, Result) {
    if n == 0 then (file, Again)
    else
      var found := AfterAttempts(size, file, server, n - 1).0;
      OneAttempt(size, found, server(n - 1, |Kept(size, found)|))
  }

  /** The pause after attempt k, counted from zero. */
  function Delay(base: nat, cap: nat, k: nat): nat {
    if k == 0 then base else S.Min(Delay(base, cap, k - 1) * 2, cap)
  }

  /** The time from the start to the end of attempt n, counted from one. */
  function Elapsed(took: nat -> nat, base: nat, cap: nat, n: nat): nat {
    if n == 0 then 0
    else if n == 1 then took(0)
    else Elapsed(took, base, cap, n - 1) + Delay(base, cap, n - 2) + took(n - 1)
  }

  /** The pauses are the base doubled with every attempt, up to the cap. */
  lemma {:induction false} DelayDoubles(base: nat, cap: nat, k: nat)
    requires base <= cap
    ensures Delay(base, cap, k) == S.Pause(base, k, cap)
  {
    if k > 0 {
      DelayDoubles(base, cap, k - 1);
      OneDoubling(base, k);
      DoubledWithin(base * S.Pow2(k - 1), cap);
    }
  }

  lemma OneDoubling(base: nat, k: nat)
    requires k > 0
    ensures base * S.Pow2(k) == base * S.Pow2(k - 1) * 2
  {
    assert S.Pow2(k) == 2 * S.Pow2(k - 1);
  }

  lemma DoubledWithin(x: nat, cap: nat)
    ensures S.Min(S.Min(x, cap) * 2, cap) == S.Min(x * 2, cap)
  {
  }

  /** The time from the start to the beginning of attempt n, counted from zero. */
  function Begins(took: nat -> nat, base: nat, cap: nat, n: nat): nat {
    if n == 0 then 0 else Elapsed(took, base, cap, n) + Delay(base, cap, n - 1)
  }

  lemma NextBegins(took: nat -> nat, base: nat, cap: nat, n: nat)
    ensures Elapsed(took, base, cap, n + 1) == Begins(took, base, cap, n) + took(n)
    ensures Begins(took, base, cap, n + 1) == Begins(took, base, cap, n) + took(n) + Delay(base, cap, n)
  {
  }

  lemma {:induction false} DelayAtLeast(base: nat, cap: nat, k: nat)
    ensures Delay(base, cap, k) >= S.Min(base, cap)
  {
    if k > 0 {
      DelayAtLeast(base, cap, k - 1);
    }
  }

  /** Every pause so far has used up some time. */
  lemma {:induction false} PausesAddUp(took: nat -> nat, base: nat, cap: nat, n: nat)
    requires n > 0
    ensures n * S.Min(base, cap) <= Begins(took, base, cap, n)
  {
    DelayAtLeast(base, cap, n - 1);
    if n > 1 {
      PausesAddUp(took, base, cap, n - 1);
      OneMore(n - 1, S.Min(base, cap));
    }
  }

  /** With a server that always resumes, every attempt that asks for another has brought the file a byte further. */
  lemma {:induction false} ResumingGrows(size: nat, file: Bytes, server: Server, archive: Bytes, n: nat)
    requires AlwaysResumes(server, archive) && |archive| == size && file <= archive && n > 0
    requires forall k | 0 < k < n :: AfterAttempts(size, file, server, k).1.Again?
    ensures var found, result := AfterAttempts(size, file, server, n).0, AfterAttempts(size, file, server, n).1;
            found <= archive && (result.Done? || (result.Again? && |found| >= n))
    decreases n
  {
    if n > 1 {
      ResumingGrows(size, file, server, archive, n - 1);
    }
    var found := AfterAttempts(size, file, server, n - 1).0;
    var kept := Kept(size, found);
    assert kept == found;
    if |kept| < size {
      var r := server(n - 1, |kept|);
      assert ResumesAt(server, archive, n - 1, |kept|);
      Continues(kept, r.body, |r.body|, archive);
      assert r.body[..|r.body|] == r.body;
    }
  }

  /** Attempt n was followed by another: it asked for one, and there was time for the pause. */
  predicate GoesOn(size: nat, file: Bytes, server: Server, took: nat -> nat, base: nat, cap: nat, start: nat,
                   deadline: nat, n: nat)
    requires n > 0
  {
    AfterAttempts(size, file, server, n).1.Again? && Begins(took, base, cap, n) < deadline - start
  }

  /** The k-th attempt found and left these files, and asked for another one. */
  predicate Stepped(size: nat, files: seq<Bytes>, server: Server, k: nat)
    requires k + 1 < |files|
  {
    OneAttempt(size, files[k], server(k, |Kept(size, files[k])|)) == (files[k + 1], Again)
  }

  lemma {:induction false} StepsAddUp(size: nat, files: seq<Bytes>, server: Server, n: nat)
    requires n < |files| && forall k: nat | k < n :: Stepped(size, files, server, k)
    ensures AfterAttempts(size, files[0], server, n) == (files[n], Again)
  {
    if n > 0 {
      StepsAddUp(size, files, server, n - 1);
      assert Stepped(size, files, server, n - 1);
    }
  }

  /** Time only passes. */
  lemma {:induction false} BeginsGrows(took: nat -> nat, base: nat, cap: nat, k: nat, n: nat)
    requires 0 < k <= n
    ensures Begins(took, base, cap, k) <= Begins(took, base, cap, n)
  {
    if k < n {
      BeginsGrows(took, base, cap, k, n - 1);
    }
  }

  lemma AttemptsAddUp(size: nat, files: seq<Bytes>, server: Server, took: nat -> nat, base: nat, cap: nat, start: nat,
                      deadline: nat)
    requires files != [] && forall k: nat | k < |files| - 1 :: Stepped(size, files, server, k)
    requires |files| > 1 ==> Begins(took, base, cap, |files| - 1) < deadline - start
    ensures var last := |files| - 1;
            AfterAttempts(size, files[0], server, |files|) ==
            OneAttempt(size, files[last], server(last, |Kept(size, files[last])|))
    ensures forall n | 0 < n < |files| :: GoesOn(size, files[0], server, took, base, cap, start, deadline, n)
  {
    StepsAddUp(size, files, server, |files| - 1);
    forall n | 0 < n < |files|
      ensures GoesOn(size, files[0], server, took, base, cap, start, deadline, n)
    {
      StepsAddUp(size, files, server, n);
      BeginsGrows(took, base, cap, n, |files| - 1);
    }
  }

  lemma SteppedMore(size: nat, files: seq<Bytes>, server: Server, file: Bytes)
    requires files != [] && forall k: nat | k < |files| - 1 :: Stepped(size, files, server, k)
    requires OneAttempt(size, files[|files| - 1], server(|files| - 1, |Kept(size, files[|files| - 1])|)) ==
             (file, Again)
    ensures forall k: nat | k < |files| :: Stepped(size, files + [file], server, k)
  {
    forall k: nat | k < |files|
      ensures Stepped(size, files + [file], server, k)
    {
      assert k < |files| - 1 ==> Stepped(size, files, server, k);
    }
  }

  lemma AllResuming(size: nat, files: seq<Bytes>, server: Server, archive: Bytes, n: nat)
    requires AlwaysResumes(server, archive) && |archive| == size && |files| == n > 0 && files[0] <= archive
    requires forall k: nat | k < n - 1 :: Stepped(size, files, server, k)
    ensures var found, result := AfterAttempts(size, files[0], server, n).0, AfterAttempts(size, files[0], server, n).1;
            result.Done? || (result.Again? && |found| >= n)
  {
    forall k | 0 < k < n
      ensures AfterAttempts(size, files[0], server, k).1.Again?
    {
      StepsAddUp(size, files, server, k);
    }
    ResumingGrows(size, files[0], server, archive, n);
  }

  class PartialFile {
    const size: nat
    var file: Bytes
    // The most bytes the file held at any time.
    ghost var peak: nat

    constructor (size: nat)
      ensures this.size == size && file == [] && peak == 0
    {
      this.size, file, peak := size, [], 0;
    }

    /** The next bytes of the body go to the end of the file. */
    method Append(bytes: Bytes)
      requires |file| <= peak
      modifies this`file, this`peak
      ensures file == old(file) + bytes && |file| <= peak
      ensures peak == if |old(file) + bytes| > old(peak) then |old(file) + bytes| else old(peak)
    {
      file := file + bytes;
      if |file| > peak {
        peak := |file|;
      }
    }

    /** The body, cut one byte past the declared size. */
    method Receive(body: Bytes, cut: bool, ghost archive: Bytes) returns (result: Result)
      requires file <= archive && body <= archive[|file|..] && |file| < size && |file| <= peak
      modifies this
      ensures file <= archive && |file| <= size && |file| <= peak
      ensures peak <= old(peak) || peak <= size + 1
      ensures !result.Refused? && (result.Done? ==> |file| == size)
      ensures result.TooLarge? ==> |archive| > size && file == []
      ensures !result.TooLarge? ==> file == old(file) + body
      ensures (file, result) == WithBody(size, old(file), Response(200, 0, body, cut))
    {
      var limit := size - |file| + 1;
      var n := if |body| < limit then |body| else limit;
      ghost var before := file;
      Append(body[..n]);
      assert file <= archive by {
        Continues(before, body, n, archive);
      }
      if cut && |body| < limit {
        return Again;
      }
      if |file| > size {
        file := [];
        return TooLarge;
      }
      result := if |file| < size then Again else Done;
    }

    /**
     * download: one attempt. Whatever the responses, the file stays a prefix of the archive, holds at no time more than
     * one byte over the declared size, and success means exactly the declared size.
     */
    method Attempt(server: Server, attempt: nat, ghost archive: Bytes) returns (result: Result)
      requires Honest(server, archive) && file <= archive && |file| <= peak
      modifies this
      ensures (file, result) == OneAttempt(size, old(file), server(attempt, |Kept(size, old(file))|))
      ensures file <= archive && |file| <= size && |file| <= peak
      ensures peak <= old(peak) || peak <= size + 1
      ensures result.Done? ==> |file| == size
      ensures |old(file)| == size ==> result.Done? && file == old(file)
      ensures result.TooLarge? ==> |archive| > size && file == []
      ensures result.Refused? ==>
                && |old(file)| != size && server(attempt, |file|).Response?
                && IsFinalCode(server(attempt, |file|).code)
      ensures |old(file)| <= size && server(attempt, |old(file)|) == NoResponse ==> file == old(file)
      ensures 0 < |old(file)| < size && Resumes(server, attempt, |old(file)|) && !result.TooLarge? ==>
                file == old(file) + server(attempt, |old(file)|).body
      ensures ResumesAt(server, archive, attempt, |Kept(size, old(file))|) && |archive| == size ==>
                result.Done? || (result.Again? && |file| > |old(file)|)
    {
      if |file| > size {
        file := [];
      }
      var have := |file|;
      if have == size {
        return Done;
      }
      var resp := server(attempt, have);
      assert HonestAt(server, archive, attempt, have);
      if resp.NoResponse? {
        return Again;
      }
      var code := resp.code;
      if code == 206 && have > 0 && resp.rangeStart == have {
      } else if code == 200 {
        file := [];
      } else if code == 206 || code == 416 {
        file := [];
        return Again;
      } else if 400 <= code < 500 && code != 408 && code != 429 {
        return Refused;
      } else {
        return Again;
      }
      result := Receive(resp.body, resp.cut, archive);
    }

    /** The response continues the file where it ends. */
    static predicate Resumes(server: Server, attempt: nat, have: nat) {
      var r := server(attempt, have);
      r.Response? && r.code == 206 && r.rangeStart == have
    }

    /**
     * fetchArchive: attempts with growing pauses, as many as there are until one succeeds or is final or the next pause
     * would reach the deadline, and no fewer; the result is that of the last. `took` says how long each attempt lasts.
     * Every pause uses up some of the time left, so with a positive delay the loop ends.
     */
    method Fetch(server: Server, took: nat -> nat, start: nat, deadline: nat, base: nat, cap: nat, ghost archive: Bytes)
      returns (result: Result, attempts: nat)
      requires Honest(server, archive) && file <= archive && |file| <= peak
      requires base > 0 && cap > 0
      modifies this
      ensures attempts > 0 && (file, result) == AfterAttempts(size, old(file), server, attempts)
      ensures forall n | 0 < n < attempts :: GoesOn(size, old(file), server, took, base, cap, start, deadline, n)
      ensures !GoesOn(size, old(file), server, took, base, cap, start, deadline, attempts)
      ensures file <= archive && |file| <= size
      ensures peak <= old(peak) || peak <= size + 1
      ensures result.Done? ==> |file| == size && file == archive[..size]
      ensures result.TooLarge? ==> |archive| > size
      ensures AlwaysResumes(server, archive) && |archive| == size ==>
                result.Done? || (result.Again? && |file| >= attempts)
      ensures attempts >= 1 && (attempts - 1) * S.Min(base, cap) <= Later(deadline - start)
    {
      ghost var files;
      result, attempts, files := Retry(server, took, start, deadline, base, cap, archive);
      AttemptsAddUp(size, files, server, took, base, cap, start, deadline);
      if AlwaysResumes(server, archive) && |archive| == size {
        AllResuming(size, files, server, archive, attempts);
      }
      if attempts > 1 {
        PausesAddUp(took, base, cap, attempts - 1);
      }
    }

    /** One attempt, of which only this much matters to the loop. */
    method NextAttempt(server: Server, attempt: nat, ghost archive: Bytes) returns (result: Result)
      requires Honest(server, archive) && file <= archive && |file| <= peak
      modifies this
      ensures (file, result) == OneAttempt(size, old(file), server(attempt, |Kept(size, old(file))|))
      ensures file <= archive && |file| <= size && |file| <= peak
      ensures peak <= old(peak) || peak <= size + 1
      ensures result.Done? ==> |file| == size
      ensures result.TooLarge? ==> |archive| > size
    {
      result := Attempt(server, attempt, archive);
    }

    /** The loop of fetchArchive, with the files that its attempts found. */
    method Retry(server: Server, took: nat -> nat, start: nat, deadline: nat, base: nat, cap: nat, ghost archive: Bytes)
      returns (result: Result, attempts: nat, ghost files: seq<Bytes>)
      requires Honest(server, archive) && file <= archive && |file| <= peak
      requires base > 0 && cap > 0
      modifies this
      ensures attempts == |files| > 0 && files[0] == old(file)
      ensures forall k: nat | k < attempts - 1 :: Stepped(size, files, server, k)
      ensures (file, result) ==
              OneAttempt(size, files[attempts - 1], server(attempts - 1, |Kept(size, files[attempts - 1])|))
      ensures attempts > 1 ==> Begins(took, base, cap, attempts - 1) < deadline - start
      ensures result.Again? ==> Begins(took, base, cap, attempts) >= deadline - start
      ensures file <= archive && |file| <= size
      ensures peak <= old(peak) || peak <= size + 1
      ensures result.Done? ==> |file| == size && file == archive[..size]
      ensures result.TooLarge? ==> |archive| > size
    {
      var clock, delay := start, base;
      attempts, files := 0, [file];
      while true
        invariant file <= archive && |file| <= peak && (attempts > 0 ==> |file| <= size)
        invariant peak <= old(peak) || peak <= size + 1
        invariant |files| == attempts + 1 && files[0] == old(file) && files[attempts] == file
        invariant forall k: nat | k < attempts :: Stepped(size, files, server, k)
        invariant delay > 0 && delay == Delay(base, cap, attempts)
        invariant clock == start + Begins(took, base, cap, attempts)
        invariant attempts > 0 ==> clock < deadline
        decreases deadline - clock
      {
        result := NextAttempt(server, attempts, archive);
        attempts := attempts + 1;
        clock := clock + took(attempts - 1);
        if !result.Again? {
          return;
        }
        if clock + delay >= deadline {
          return;
        }
        SteppedMore(size, files, server, file);
        NextBegins(took, base, cap, attempts - 1);
        files := files + [file];
        clock := clock + delay;
        delay := S.Min(delay * 2, cap);
      }
    }

    static function Later(n: int): nat {
      if n < 0 then 0 else n
    }

    /**
     * fetchVerified: the download starts from nothing, and what its attempts leave is used exactly when they end well
     * and it has the digest asked for, whatever the server did.
     */
    method FetchVerified(server: Server, took: nat -> nat, start: nat, deadline: nat, base: nat, cap: nat, want: S.Sum,
                         ghost archive: Bytes)
      returns (ok: bool, ghost attempts: nat)
      requires Honest(server, archive) && base > 0 && cap > 0
      modifies this
      ensures attempts > 0 && file == AfterAttempts(size, [], server, attempts).0
      ensures forall n | 0 < n < attempts :: GoesOn(size, [], server, took, base, cap, start, deadline, n)
      ensures !GoesOn(size, [], server, took, base, cap, start, deadline, attempts)
      ensures ok <==> AfterAttempts(size, [], server, attempts).1.Done? && S.Sum(file) == want
      ensures ok ==> |file| == size
      ensures ok && |archive| == size ==> file == archive
      ensures peak <= size + 1
    {
      file, peak := [], 0;
      var result, made := Fetch(server, took, start, deadline, base, cap, archive);
      ok, attempts := result.Done? && S.Sum(file) == want, made;
    }
  }

  lemma OneMore(n: nat, pause: nat)
    ensures (n + 1) * pause == n * pause + pause
  {
  }

  lemma Continues(have: Bytes, body: Bytes, n: nat, archive: Bytes)
    requires have <= archive && body <= archive[|have|..] && n <= |body|
    ensures have + body[..n] <= archive
  {
    assert archive == have + archive[|have|..];
  }
}
