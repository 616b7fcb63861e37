/** Collecting streamed manifests from two channels read in any order (clients/akuity/client.go). */
module ManifestStream {
  import opened Wrappers

  /** How the loop ended; Waiting when the schedule ran out first. */
  datatype End = Waiting | ByResponses | ByErrors | ByFailure
  datatype Outcome = Outcome(end: End, manifests: Result<string, string>)

  function Failed(text: string): Outcome {
    Outcome(ByFailure, Err("could not get cluster manifests from Akuity API, error: " + text))
  }

  /**
   * One channel delivers `chunks` and then closes, the other `errors` (None being a nil error) and then closes;
   * `schedule` says which one each select reads, true being the chunks.
   */
  function Collect(chunks: seq<string>, errors: seq<Option<string>>, schedule: seq<bool>, soFar: string): Outcome
    decreases |schedule|
  {
    if schedule == [] then Outcome(Waiting, Ok(soFar))
    else if schedule[0] then
      if chunks == [] then Outcome(ByResponses, Ok(soFar))
      else Collect(chunks[1..], errors, schedule[1..], soFar + chunks[0])
    else if errors == [] then Outcome(ByErrors, Ok(soFar))
    else if errors[0].Some? then Failed(errors[0].value)
    else Collect(chunks, errors[1..], schedule[1..], soFar)
  }

  /** The select loop; a channel is set to nil when it is found closed. */
  method GetManifestsFromResponse(chunks: seq<string>, errors: seq<Option<string>>, schedule: seq<bool>)
    returns (out: Outcome)
    ensures out == Collect(chunks, errors, schedule, "")
  {
    var manifests := "";
    var responses, failures := chunks, errors;
    var responsesNil, errorsNil := false, false;
    var i := 0;
    while i < |schedule|
      invariant i <= |schedule| && !responsesNil && !errorsNil
      invariant Collect(chunks, errors, schedule, "") == Collect(responses, failures, schedule[i..], manifests)
    {
      assert schedule[i..][1..] == schedule[i + 1..];
      if schedule[i] {
        if responses == [] {
          responsesNil := true;
        } else {
          manifests := manifests + responses[0];
          responses := responses[1..];
        }
      } else {
        if failures == [] {
          errorsNil := true;
        } else if failures[0].Some? {
          return Failed(failures[0].value);
        } else {
          failures := failures[1..];
        }
      }
      if responsesNil || errorsNil { break; }
      i := i + 1;
    }
    out := Outcome(if responsesNil then ByResponses else if errorsNil then ByErrors else Waiting, Ok(manifests));
  }

  function Concat(chunks: seq<string>): string {
    if chunks == [] then "" else chunks[0] + Concat(chunks[1..])
  }

  /** Over every schedule: without an error the result is the first `n` chunks in order, and all of them when the
      loop ended because the responses did. */
  lemma {:induction false} ResultIsAPrefix(
    chunks: seq<string>, errors: seq<Option<string>>, schedule: seq<bool>, soFar: string)
    returns (n: nat)
    ensures n <= |chunks|
    ensures var out := Collect(chunks, errors, schedule, soFar);
      && (out.manifests.Ok? ==> out.manifests.value == soFar + Concat(chunks[..n]))
      && (out.end == ByResponses ==> out.manifests.Ok? && n == |chunks|)
    decreases |schedule|
  {
    n := 0;
    if schedule != [] {
      if schedule[0] && chunks != [] {
        var m := ResultIsAPrefix(chunks[1..], errors, schedule[1..], soFar + chunks[0]);
        n := m + 1;
        assert chunks[..n][0] == chunks[0] && chunks[..n][1..] == chunks[1..][..m];
        assert soFar + (chunks[0] + Concat(chunks[1..][..m])) == soFar + chunks[0] + Concat(chunks[1..][..m]);
      } else if !schedule[0] && errors != [] && errors[0].None? {
        n := ResultIsAPrefix(chunks, errors[1..], schedule[1..], soFar);
      }
    }
  }

  /** A server error that is read is never lost among the chunks. */
  lemma {:induction false} ErrorsAreReported(
    chunks: seq<string>, errors: seq<Option<string>>, schedule: seq<bool>, soFar: string)
    ensures var out := Collect(chunks, errors, schedule, soFar);
      out.manifests.Err? <==> out.end == ByFailure
    ensures Collect(chunks, errors, schedule, soFar).end == ByFailure ==>
      exists i :: 0 <= i < |errors| && errors[i].Some?
        && Collect(chunks, errors, schedule, soFar) == Failed(errors[i].value)
    decreases |schedule|
  {
    if schedule != [] {
      if schedule[0] && chunks != [] {
        ErrorsAreReported(chunks[1..], errors, schedule[1..], soFar + chunks[0]);
      } else if !schedule[0] && errors != [] && errors[0].None? {
        ErrorsAreReported(chunks, errors[1..], schedule[1..], soFar);
        var out := Collect(chunks, errors, schedule, soFar);
        if out.end == ByFailure {
          var i :| 0 <= i < |errors[1..]| && errors[1..][i].Some? && out == Failed(errors[1..][i].value);
          assert errors[i + 1] == errors[1..][i];
        }
      }
    }
  }

  // ----- What the reads decide -----

  /** How many of the selects read the chunks (or, for false, the errors). */
  function Count(schedule: seq<bool>, ofChunks: bool): nat {
    if schedule == [] then 0 else (if schedule[0] == ofChunks then 1 else 0) + Count(schedule[1..], ofChunks)
  }

  /** After `n` selects neither channel was found closed and only nil errors were read. */
  ghost predicate StillReading(chunks: seq<string>, errors: seq<Option<string>>, schedule: seq<bool>, n: nat) {
    && n <= |schedule|
    && Count(schedule[..n], true) <= |chunks| && Count(schedule[..n], false) <= |errors|
    && forall i | 0 <= i < Count(schedule[..n], false) :: errors[i].None?
  }

  lemma ReadsStep(chunks: seq<string>, errors: seq<Option<string>>, schedule: seq<bool>, n: nat)
    requires 0 < n <= |schedule|
    ensures Count(schedule[..n], true) == Count(schedule[1..][..n - 1], true) + if schedule[0] then 1 else 0
    ensures Count(schedule[..n], false) == Count(schedule[1..][..n - 1], false) + if schedule[0] then 0 else 1
    ensures schedule[0] && chunks != [] ==>
      (StillReading(chunks, errors, schedule, n) <==> StillReading(chunks[1..], errors, schedule[1..], n - 1))
    ensures !schedule[0] && errors != [] && errors[0].None? ==>
      (StillReading(chunks, errors, schedule, n) <==> StillReading(chunks, errors[1..], schedule[1..], n - 1))
    ensures StillReading(chunks, errors, schedule, n) ==>
      if schedule[0] then chunks != [] else errors != [] && errors[0].None?
  {
    assert schedule[..n][0] == schedule[0] && schedule[..n][1..] == schedule[1..][..n - 1];
    if !schedule[0] && errors != [] && errors[0].None? && StillReading(chunks, errors[1..], schedule[1..], n - 1) {
      forall i | 0 <= i < Count(schedule[..n], false) ensures errors[i].None? {
        assert i > 0 ==> errors[1..][i - 1].None?;
      }
    }
  }

  /** The select after the last one that leaves the loop reading, if there is one. */
  ghost predicate LastRead(chunks: seq<string>, errors: seq<Option<string>>, schedule: seq<bool>, n: nat) {
    && StillReading(chunks, errors, schedule, n)
    && (n < |schedule| ==> !StillReading(chunks, errors, schedule, n + 1))
  }

  lemma {:induction false} LastReadExists(
    chunks: seq<string>, errors: seq<Option<string>>, schedule: seq<bool>, from: nat) returns (n: nat)
    requires StillReading(chunks, errors, schedule, from)
    ensures n >= from && LastRead(chunks, errors, schedule, n)
    decreases |schedule| - from
  {
    n := from;
    if from < |schedule| && StillReading(chunks, errors, schedule, from + 1) {
      n := LastReadExists(chunks, errors, schedule, from + 1);
    }
  }

  lemma LastReadStep(chunks: seq<string>, errors: seq<Option<string>>, schedule: seq<bool>, n: nat)
    requires 0 < n && LastRead(chunks, errors, schedule, n)
    ensures if schedule[0]
      then chunks != [] && LastRead(chunks[1..], errors, schedule[1..], n - 1)
      else errors != [] && errors[0].None? && LastRead(chunks, errors[1..], schedule[1..], n - 1)
  {
    ReadsStep(chunks, errors, schedule, n);
    if n < |schedule| { ReadsStep(chunks, errors, schedule, n + 1); }
    hide StillReading;
    hide Count;
  }

  /** With nothing read yet, the first select decides. */
  lemma FirstSelect(chunks: seq<string>, errors: seq<Option<string>>, schedule: seq<bool>)
    requires LastRead(chunks, errors, schedule, 0) && schedule != []
    ensures if schedule[0] then chunks == [] else errors == [] || errors[0].Some?
  {
    assert schedule[..1] == [schedule[0]] && [schedule[0]][1..] == [];
    assert schedule[..0] == [];
  }

  lemma Associates(a: string, b: string, c: string)
    ensures a + (b + c) == a + b + c
  {}

  lemma ConcatHead(chunks: seq<string>, n: nat, soFar: string)
    requires 0 < n <= |chunks|
    ensures soFar + Concat(chunks[..n]) == soFar + chunks[0] + Concat(chunks[1..][..n - 1])
    ensures soFar + Concat(chunks) == soFar + chunks[0] + Concat(chunks[1..])
  {
    assert chunks[..n][0] == chunks[0] && chunks[..n][1..] == chunks[1..][..n - 1];
    assert Concat(chunks[..n]) == chunks[0] + Concat(chunks[1..][..n - 1]);
    assert Concat(chunks) == chunks[0] + Concat(chunks[1..]);
    hide Concat;
    Associates(soFar, chunks[0], Concat(chunks[1..][..n - 1]));
    Associates(soFar, chunks[0], Concat(chunks[1..]));
  }

  /** The loop by counting reads: it waits on when the schedule runs out first; reading the chunks once more than
      there are ends it with all of them; reading the errors once more than there are ends it with the chunks read so
      far; and reading a server error ends it with that error. */
  lemma {:induction false} CollectByCount(
    chunks: seq<string>, errors: seq<Option<string>>, schedule: seq<bool>, n: nat, soFar: string)
    requires LastRead(chunks, errors, schedule, n)
    ensures var out := Collect(chunks, errors, schedule, soFar);
      var (read, nils) := (Count(schedule[..n], true), Count(schedule[..n], false));
      if n == |schedule| then out == Outcome(Waiting, Ok(soFar + Concat(chunks[..read])))
      else if schedule[n] then out == Outcome(ByResponses, Ok(soFar + Concat(chunks)))
      else if nils == |errors| then out == Outcome(ByErrors, Ok(soFar + Concat(chunks[..read])))
      else errors[nils].Some? && out == Failed(errors[nils].value)
    decreases n
  {
    if n == 0 {
      assert schedule[..0] == [] && soFar + "" == soFar && chunks[..0] == [];
      if schedule != [] { FirstSelect(chunks, errors, schedule); }
    } else {
      LastReadStep(chunks, errors, schedule, n);
      ReadsStep(chunks, errors, schedule, n);
      if schedule[0] {
        CollectByCount(chunks[1..], errors, schedule[1..], n - 1, soFar + chunks[0]);
        ConcatHead(chunks, Count(schedule[..n], true), soFar);
      } else {
        CollectByCount(chunks, errors[1..], schedule[1..], n - 1, soFar);
      }
    }
  }

  lemma {:induction false} CountNext(schedule: seq<bool>, n: nat)
    requires n < |schedule|
    ensures Count(schedule[..n + 1], schedule[n]) == Count(schedule[..n], schedule[n]) + 1
    ensures Count(schedule[..n + 1], !schedule[n]) == Count(schedule[..n], !schedule[n])
    decreases n
  {
    if n == 0 {
      assert schedule[..1] == [schedule[0]] && schedule[..0] == [];
    } else {
      assert schedule[..n + 1][1..] == schedule[1..][..n] && schedule[..n][1..] == schedule[1..][..n - 1];
      CountNext(schedule[1..], n - 1);
    }
  }

  /** A server error that is read before either channel is found closed is what the loop returns. */
  lemma ReadErrorIsReturned(chunks: seq<string>, errors: seq<Option<string>>, schedule: seq<bool>, n: nat)
    requires StillReading(chunks, errors, schedule, n) && n < |schedule| && !schedule[n]
    requires Count(schedule[..n], false) < |errors| && errors[Count(schedule[..n], false)].Some?
    ensures Collect(chunks, errors, schedule, "") == Outcome(ByFailure, Err(
      "could not get cluster manifests from Akuity API, error: " + errors[Count(schedule[..n], false)].value))
  {
    CountNext(schedule, n);
    CollectByCount(chunks, errors, schedule, n, "");
  }

  /** The loop is left waiting only by a schedule that finds no channel closed and reads no server error. */
  lemma WaitingExactly(chunks: seq<string>, errors: seq<Option<string>>, schedule: seq<bool>)
    ensures Collect(chunks, errors, schedule, "").end == Waiting
       <==> StillReading(chunks, errors, schedule, |schedule|)
  {
    assert schedule[..0] == [];
    var n := LastReadExists(chunks, errors, schedule, 0);
    CollectByCount(chunks, errors, schedule, n, "");
    if StillReading(chunks, errors, schedule, |schedule|) {
      CollectByCount(chunks, errors, schedule, |schedule|, "");
    }
  }

  // ----- When a success is complete -----

  ghost predicate HoldsError(errors: seq<Option<string>>) {
    exists i :: 0 <= i < |errors| && errors[i].Some?
  }

  /** An error channel that holds only nil errors ends the loop when it closes: every prefix of the chunks, however
      short, can be returned as a success. */
  lemma {:induction false} EveryPrefixIsPossible(
    chunks: seq<string>, errors: seq<Option<string>>, n: nat, soFar: string) returns (schedule: seq<bool>)
    requires n <= |chunks| && !HoldsError(errors)
    ensures Collect(chunks, errors, schedule, soFar) == Outcome(ByErrors, Ok(soFar + Concat(chunks[..n])))
    decreases n + |errors|
  {
    if errors != [] {
      assert errors[0].None? && forall i | 0 <= i < |errors[1..]| :: errors[1..][i] == errors[i + 1];
      var rest := EveryPrefixIsPossible(chunks, errors[1..], n, soFar);
      schedule := [false] + rest;
      assert schedule[1..] == rest;
    } else if n == 0 {
      schedule := [false];
      assert soFar + "" == soFar;
    } else {
      var rest := EveryPrefixIsPossible(chunks[1..], errors, n - 1, soFar + chunks[0]);
      schedule := [true] + rest;
      assert schedule[1..] == rest;
      assert chunks[..n][0] == chunks[0] && chunks[..n][1..] == chunks[1..][..n - 1];
      assert soFar + (chunks[0] + Concat(chunks[1..][..n - 1])) == soFar + chunks[0] + Concat(chunks[1..][..n - 1]);
    }
  }

  /** A server error on the channel is in the way of the end of the errors. */
  lemma {:induction false} ErrorHoldsTheLoop(
    chunks: seq<string>, errors: seq<Option<string>>, schedule: seq<bool>, soFar: string)
    requires HoldsError(errors)
    ensures Collect(chunks, errors, schedule, soFar).end != ByErrors
    decreases |schedule|
  {
    if schedule != [] {
      if schedule[0] && chunks != [] {
        ErrorHoldsTheLoop(chunks[1..], errors, schedule[1..], soFar + chunks[0]);
      } else if !schedule[0] && errors[0].None? {
        var i :| 0 <= i < |errors| && errors[i].Some?;
        assert errors[1..][i - 1].Some?;
        ErrorHoldsTheLoop(chunks, errors[1..], schedule[1..], soFar);
      }
    }
  }

  lemma {:induction false} ConcatSplits(chunks: seq<string>, n: nat)
    requires n <= |chunks|
    ensures Concat(chunks) == Concat(chunks[..n]) + Concat(chunks[n..])
    decreases n
  {
    if n > 0 {
      ConcatSplits(chunks[1..], n - 1);
      assert chunks[..n][1..] == chunks[1..][..n - 1] && chunks[1..][n - 1..] == chunks[n..];
    }
  }

  /** On this schedule a success carries every chunk. */
  ghost predicate CompleteOn(chunks: seq<string>, errors: seq<Option<string>>, schedule: seq<bool>) {
    var out := Collect(chunks, errors, schedule, "");
    out.end == Waiting || out.manifests.Err? || out.manifests == Ok(Concat(chunks))
  }

  /** A success means the whole manifest, on every schedule, exactly when a server error is on its way or there is
      nothing to collect. */
  lemma SuccessIsCompleteExactly(chunks: seq<string>, errors: seq<Option<string>>)
    ensures (forall schedule :: CompleteOn(chunks, errors, schedule))
       <==> (exists i :: 0 <= i < |errors| && errors[i].Some?) || Concat(chunks) == ""
  {
    if HoldsError(errors) || Concat(chunks) == "" {
      forall schedule ensures CompleteOn(chunks, errors, schedule) {
        var n := ResultIsAPrefix(chunks, errors, schedule, "");
        ErrorsAreReported(chunks, errors, schedule, "");
        if HoldsError(errors) { ErrorHoldsTheLoop(chunks, errors, schedule, ""); }
        ConcatSplits(chunks, n);
        assert chunks[..|chunks|] == chunks && "" + Concat(chunks[..n]) == Concat(chunks[..n]);
      }
    } else {
      var schedule := EveryPrefixIsPossible(chunks, errors, 0, "");
      assert !CompleteOn(chunks, errors, schedule);
    }
  }
}
