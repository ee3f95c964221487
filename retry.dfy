/** Bounded retry with a doubling pause (main.py, retry_operation). The
    operation is any step on the session state; the batch driver passes the
    report request. The pauses are not taken; they are returned in order. */
module Retry {
  import opened Common
  import opened Http
  import opened Login
  import opened Trigger

  /** How `retry_operation` ends: it returns the operation's value (`None` when
      it never ran), or re-raises the last error. */
  datatype Outcome<T, E> = Returned(value: Option<T>) | Raised(error: E)

  /** The end state, the outcome, how many attempts ran and the pauses asked for. */
  datatype Retried<T, E> = Retried(w: Wire, outcome: Outcome<T, E>, attempts: nat, sleeps: seq<int>)

  /** The attempts from index `attempt` on, the next pause being `delay`. */
  function RetryFrom<T, E>(w: Wire, op: Wire -> (Wire, Result<T, E>), attempt: nat, maxRetries: int, delay: int)
    : (res: Retried<T, E>)
    decreases maxRetries - attempt
  {
    if attempt >= maxRetries then Retried(w, Returned(None), 0, [])
    else
      var (w1, r) := op(w);
      if r.Success? then Retried(w1, Returned(Some(r.value)), 1, [])
      else if attempt < maxRetries - 1 then
        var rest := RetryFrom(w1, op, attempt + 1, maxRetries, delay * 2);
        Retried(rest.w, rest.outcome, rest.attempts + 1, [delay] + rest.sleeps)
      else Retried(w1, Raised(r.error), 1, [])
  }

  function Generate(cfg: Config, id: Json): Wire -> (Wire, Result<Json, TriggerError>) {
    w => GenerateFlow(w, cfg, id)
  }

  /** The attempts already made plus the ones `RetryFrom` still makes add up to `goal`. */
  ghost predicate OnTrack<T, E>(goal: Retried<T, E>, w: Wire, op: Wire -> (Wire, Result<T, E>),
                                attempts: nat, maxRetries: int, pause: int, sleeps: seq<int>)
  {
    var rest := RetryFrom(w, op, attempts, maxRetries, pause);
    goal == Retried(rest.w, rest.outcome, attempts + rest.attempts, sleeps + rest.sleeps)
  }

  /** `retry_operation(lambda: generate_grade_report(session, id), maxRetries, delay)`. */
  method RetryOperation(s: Session, cfg: Config, id: Json, maxRetries: int, delay: int)
    returns (outcome: Outcome<Json, TriggerError>, attempts: nat, sleeps: seq<int>)
    modifies s
    ensures Retried(s.State(), outcome, attempts, sleeps) == RetryFrom(old(s.State()), Generate(cfg, id), 0, maxRetries, delay)
    ensures s.headers == old(s.headers)
  {
    ghost var op := Generate(cfg, id);
    ghost var goal := RetryFrom(s.State(), op, 0, maxRetries, delay);
    var pause := delay;
    attempts := 0;
    sleeps := [];
    while attempts < maxRetries
      invariant s.headers == old(s.headers)
      invariant OnTrack(goal, s.State(), op, attempts, maxRetries, pause, sleeps)
      decreases maxRetries - attempts
    {
      ghost var w := s.State();
      var r := GenerateGradeReport(s, cfg, id);
      GenerateIsOp(w, cfg, id, s.State(), r);
      AttemptStep(goal, w, op, s.State(), r, attempts, maxRetries, pause, sleeps);
      if r.Success? {
        return Returned(Some(r.value)), attempts + 1, sleeps;
      }
      if attempts < maxRetries - 1 {
        sleeps := sleeps + [pause];
        pause := pause * 2;
      } else {
        return Raised(r.error), attempts + 1, sleeps;
      }
      attempts := attempts + 1;
    }
    outcome := Returned(None);
  }

  lemma GenerateIsOp(w: Wire, cfg: Config, id: Json, w1: Wire, r: Result<Json, TriggerError>)
    requires (w1, r) == GenerateFlow(w, cfg, id)
    ensures Generate(cfg, id)(w) == (w1, r)
  {
  }

  /** One attempt, seen from the loop: a success or the last failure ends at
      `goal`, and a failure with attempts left stays on track with the pause
      recorded and doubled. */
  lemma AttemptStep<T, E>(goal: Retried<T, E>, w: Wire, op: Wire -> (Wire, Result<T, E>), w1: Wire, r: Result<T, E>,
                          attempts: nat, maxRetries: int, pause: int, sleeps: seq<int>)
    requires attempts < maxRetries && op(w) == (w1, r)
    requires OnTrack(goal, w, op, attempts, maxRetries, pause, sleeps)
    ensures r.Success? ==> goal == Retried(w1, Returned(Some(r.value)), attempts + 1, sleeps)
    ensures r.Failure? && attempts < maxRetries - 1 ==>
      OnTrack(goal, w1, op, attempts + 1, maxRetries, pause * 2, sleeps + [pause])
    ensures r.Failure? && attempts >= maxRetries - 1 ==> goal == Retried(w1, Raised(r.error), attempts + 1, sleeps)
  {
    if r.Failure? && attempts < maxRetries - 1 {
      var rest := RetryFrom(w1, op, attempts + 1, maxRetries, pause * 2);
      assert sleeps + ([pause] + rest.sleeps) == (sleeps + [pause]) + rest.sleeps;
    }
  }

  function Pow2(k: nat): (p: int)
    ensures p >= 1
  {
    if k == 0 then 1 else 2 * Pow2(k - 1)
  }

  /** The pauses between attempts: `delay`, `2·delay`, `4·delay`, ..., one
      fewer than the attempts, none after the last one. At most `maxRetries`
      attempts run; none when `maxRetries <= 0`, which returns `None`; and the
      error is re-raised only once every allowed attempt has failed. */
  lemma {:induction false} RetryShape<T, E>(w: Wire, op: Wire -> (Wire, Result<T, E>), attempt: nat, maxRetries: int, delay: int)
    ensures var res := RetryFrom(w, op, attempt, maxRetries, delay);
      && (attempt >= maxRetries <==> res.attempts == 0)
      && (attempt < maxRetries ==> res.attempts <= maxRetries - attempt)
      && (res.attempts == 0 ==> res.outcome == Returned(None) && res.w == w && res.sleeps == [])
      && (res.attempts >= 1 ==> |res.sleeps| == res.attempts - 1)
      && (forall i :: 0 <= i < |res.sleeps| ==> res.sleeps[i] == delay * Pow2(i))
      && (res.outcome.Raised? ==> res.attempts == maxRetries - attempt)
      && (res.outcome == Returned(None) ==> res.attempts == 0)
    decreases maxRetries - attempt
  {
    if attempt < maxRetries {
      var (w1, r) := op(w);
      if r.Failure? && attempt < maxRetries - 1 {
        RetryShape(w1, op, attempt + 1, maxRetries, delay * 2);
        var rest := RetryFrom(w1, op, attempt + 1, maxRetries, delay * 2);
        var res := RetryFrom(w, op, attempt, maxRetries, delay);
        assert res.sleeps == [delay] + rest.sleeps;
        forall i | 0 <= i < |res.sleeps| ensures res.sleeps[i] == delay * Pow2(i) {
          if i > 0 {
            assert res.sleeps[i] == rest.sleeps[i - 1] == delay * 2 * Pow2(i - 1);
          }
        }
      }
    }
  }

  /** The first attempt that succeeds ends the loop with its value. */
  lemma FirstSuccessReturned<T, E>(w: Wire, op: Wire -> (Wire, Result<T, E>), maxRetries: int, delay: int)
    requires maxRetries >= 1 && op(w).1.Success?
    ensures RetryFrom(w, op, 0, maxRetries, delay) == Retried(op(w).0, Returned(Some(op(w).1.value)), 1, [])
  {
  }

  /** Every attempt failed when the error is re-raised; the attempts consume
      the session state in turn. */
  lemma {:induction false} RaisedAfterFailures<T, E>(w: Wire, op: Wire -> (Wire, Result<T, E>), attempt: nat, maxRetries: int, delay: int)
    requires RetryFrom(w, op, attempt, maxRetries, delay).outcome.Raised?
    ensures op(w).1.Failure?
    ensures attempt + 1 < maxRetries ==>
      RetryFrom(op(w).0, op, attempt + 1, maxRetries, delay * 2).outcome.Raised?
  {
  }

  /** The session state after `k` attempts, each starting where the one
      before it ended. */
  function StateAfter<T, E>(w: Wire, op: Wire -> (Wire, Result<T, E>), k: nat): Wire
    decreases k
  {
    if k == 0 then w else op(StateAfter(w, op, k - 1)).0
  }

  lemma {:induction false} StateAfterShift<T, E>(w: Wire, op: Wire -> (Wire, Result<T, E>), k: nat)
    ensures StateAfter(op(w).0, op, k) == StateAfter(w, op, k + 1)
    decreases k
  {
    if k > 0 {
      StateAfterShift(w, op, k - 1);
    }
  }

  /** Attempt `j` runs on the state the attempts before it left. Every attempt
      but the last failed; the last one decides: its value is returned when it
      succeeded, its error re-raised when it failed, and its end state is the
      final state. */
  lemma {:induction false} LastAttemptDecides<T, E>(w: Wire, op: Wire -> (Wire, Result<T, E>), attempt: nat, maxRetries: int, delay: int)
    ensures var res := RetryFrom(w, op, attempt, maxRetries, delay);
      res.attempts >= 1 ==>
        && (forall j :: 0 <= j < res.attempts - 1 ==> op(StateAfter(w, op, j)).1.Failure?)
        && var last := op(StateAfter(w, op, res.attempts - 1));
          && res.w == last.0
          && (res.outcome.Returned? ==> last.1.Success? && res.outcome.value == Some(last.1.value))
          && (res.outcome.Raised? ==> last.1.Failure? && res.outcome.error == last.1.error)
    decreases maxRetries - attempt
  {
    if attempt < maxRetries {
      var (w1, r) := op(w);
      if r.Failure? && attempt < maxRetries - 1 {
        LastAttemptDecides(w1, op, attempt + 1, maxRetries, delay * 2);
        var rest := RetryFrom(w1, op, attempt + 1, maxRetries, delay * 2);
        if rest.attempts >= 1 {
          forall j | 0 <= j < rest.attempts
            ensures op(StateAfter(w, op, j + 1)) == op(StateAfter(w1, op, j))
          {
            StateAfterShift(w, op, j);
          }
          forall j | 0 <= j < rest.attempts ensures op(StateAfter(w, op, j)).1.Failure? {
            if j > 0 {
              assert op(StateAfter(w, op, j)) == op(StateAfter(w1, op, j - 1));
            }
          }
        }
      }
    }
  }

  /** What the batch driver uses: two attempts, 5 seconds apart. A report that
      fails twice is re-raised after one pause of 5 seconds. */
  lemma TwoAttempts<T, E>(w: Wire, op: Wire -> (Wire, Result<T, E>))
    ensures var res := RetryFrom(w, op, 0, 2, 5);
      && 1 <= res.attempts <= 2
      && res.outcome != Returned(None)
      && (res.outcome.Raised? ==> res.attempts == 2 && res.sleeps == [5])
  {
    RetryShape(w, op, 0, 2, 5);
  }
}
