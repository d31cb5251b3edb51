/**
 * `process_audio`: submit the job, then poll its status every two seconds
 * until the service reports success (code 1000) or failure (another code
 * below 2000), or until the time elapsed since polling started exceeds the
 * budget. The remote service and the clock are inputs: the replies the
 * service gives to successive queries, and the successive clock readings.
 */
module Poller {
  import opened Wrappers
  import opened Wire
  import opened Client
  import opened Normalizer

  const PollIntervalSeconds: int := 2
  const DefaultMaxWaitSeconds: int := 300
  const SuccessCode: int := 1000
  const PendingCodeFloor: int := 2000

  /**
   * What the service and the clock do during one call. `clock[0]` is the
   * reading taken when polling starts; `clock[i + 1]` is the reading taken
   * after the reply to query `i` (when the loop gets that far).
   */
  datatype Environment = Environment(
    submitReply: SubmitReply,
    queryReplies: seq<QueryReply>,
    clock: seq<int>)

  /**
   * The environment covers the whole call: one clock reading per query after
   * the start, and the last one is past the deadline, so the loop ends within
   * the replies given.
   */
  predicate Bounded(env: Environment, maxWait: int) {
    && |env.queryReplies| >= 1
    && |env.clock| == |env.queryReplies| + 1
    && env.clock[|env.queryReplies|] - env.clock[0] > maxWait
  }

  /** The deadline check after query `i` sees the budget exceeded. */
  predicate Late(env: Environment, maxWait: int, i: nat)
    requires i + 1 < |env.clock|
  {
    env.clock[i + 1] - env.clock[0] > maxWait
  }

  /** What one poll cycle decides: keep polling, or stop with this result. */
  datatype Step = Pending | Done(result: Result<seq<WordRecord>, AsrError>)

  /** `resp_dict['resp']['code']`. */
  function CodeOf(reply: QueryReply): (r: Result<int, AsrError>)
    ensures r.Ok? <==> reply.resp.Some? && reply.resp.value.code.Some?
    ensures r.Ok? ==> r.value == reply.resp.value.code.value
    ensures r.Err? ==> r.error == MissingKey(if reply.resp.None? then "resp" else "code")
  {
    match reply.resp
    case None => Err(MissingKey("resp"))
    case Some(resp) =>
      match resp.code
      case None => Err(MissingKey("code"))
      case Some(code) => Ok(code)
  }

  /**
   * One poll cycle, after the reply has arrived: the code checks come first,
   * the deadline check only for a code of 2000 or more.
   */
  function Cycle(reply: QueryReply, elapsed: int, maxWait: int): (s: Step)
    ensures CodeOf(reply).Err? ==> s == Done(Err(CodeOf(reply).error))
    ensures CodeOf(reply) == Ok(SuccessCode) ==> s == Done(NormalizedResults(reply))
    ensures CodeOf(reply).Ok? && CodeOf(reply).value != SuccessCode && CodeOf(reply).value < PendingCodeFloor
            ==> s == Done(Err(TaskFailed(CodeOf(reply).value)))
    ensures CodeOf(reply).Ok? && CodeOf(reply).value >= PendingCodeFloor
            ==> (s == Pending <==> elapsed <= maxWait) && (s != Pending ==> s == Done(Err(TimedOut)))
    ensures s == Done(Err(TimedOut)) ==> CodeOf(reply).Ok? && CodeOf(reply).value >= PendingCodeFloor && elapsed > maxWait
  {
    match CodeOf(reply)
    case Err(e) => Done(Err(e))
    case Ok(code) =>
      if code == SuccessCode then Done(NormalizedResults(reply))
      else if code < PendingCodeFloor then Done(Err(TaskFailed(code)))
      else if elapsed > maxWait then Done(Err(TimedOut))
      else Pending
  }

  /** Cycle `i` of a run in this environment. */
  function StepAt(env: Environment, maxWait: int, i: nat): Step
    requires Bounded(env, maxWait) && i < |env.queryReplies|
  {
    Cycle(env.queryReplies[i], env.clock[i + 1] - env.clock[0], maxWait)
  }

  /** The effects of one cycle: the two-second sleep, then the query. */
  function QueryCycle(c: AsrClient, taskId: string): seq<Event> {
    [Sleep(PollIntervalSeconds), PostQuery(QueryBody(c, taskId), c.authorization)]
  }

  /** The effects of `n` cycles. */
  function Cycles(c: AsrClient, taskId: string, n: nat): seq<Event> {
    if n == 0 then [] else Cycles(c, taskId, n - 1) + QueryCycle(c, taskId)
  }

  /** The polling loop from cycle `i` on. */
  function PollFrom(c: AsrClient, taskId: string, env: Environment, maxWait: int, i: nat): Outcome<seq<WordRecord>>
    requires Bounded(env, maxWait) && i < |env.queryReplies|
    decreases |env.queryReplies| - i
  {
    match StepAt(env, maxWait, i)
    case Done(r) => Outcome(r, QueryCycle(c, taskId))
    case Pending =>
      var rest := PollFrom(c, taskId, env, maxWait, i + 1);
      Outcome(rest.result, QueryCycle(c, taskId) + rest.trace)
  }

  /** The whole of `process_audio`: submission, then polling with the handle the service returned. */
  function ProcessAudioRun(c: AsrClient, filename: string, uid: string, env: Environment, maxWait: int)
    : (o: Outcome<seq<WordRecord>>)
    requires Bounded(env, maxWait)
    ensures !HasUploadCredentials(c) ==> o == Outcome(Err(MissingUploadCredentials), [])
    ensures HasUploadCredentials(c) && TaskIdOf(env.submitReply).Err? ==>
      && o.result == Err(TaskIdOf(env.submitReply).error)
      && o.trace == SubmitTask(c, filename, uid, env.submitReply).trace
      && |o.trace| == 2
  {
    var submitted := SubmitTask(c, filename, uid, env.submitReply);
    match submitted.result
    case Err(e) => Outcome(Err(e), submitted.trace)
    case Ok(taskId) =>
      var polled := PollFrom(c, taskId, env, maxWait, 0);
      Outcome(polled.result, submitted.trace + polled.trace)
  }

  /** After `i` pending cycles, the run so far is `i` cycles of effects and the rest is the loop from cycle `i`. */
  predicate PolledSoFar(c: AsrClient, taskId: string, env: Environment, maxWait: int,
                        whole: Outcome<seq<WordRecord>>, i: nat)
    requires Bounded(env, maxWait) && i < |env.queryReplies|
  {
    && whole.result == PollFrom(c, taskId, env, maxWait, i).result
    && whole.trace == Cycles(c, taskId, i) + PollFrom(c, taskId, env, maxWait, i).trace
  }

  /** A pending cycle saw a code of 2000 or more and an on-time clock, so it is not the last one given. */
  lemma PendingIsOnTime(env: Environment, maxWait: int, i: nat)
    requires Bounded(env, maxWait) && i < |env.queryReplies|
    requires StepAt(env, maxWait, i) == Pending
    ensures CodeOf(env.queryReplies[i]).Ok? && CodeOf(env.queryReplies[i]).value >= PendingCodeFloor
    ensures !Late(env, maxWait, i)
    ensures i + 1 < |env.queryReplies|
  {
  }

  /** A cycle whose deadline check is late is final. */
  lemma LateIsFinal(env: Environment, maxWait: int, i: nat)
    requires Bounded(env, maxWait) && i < |env.queryReplies| && Late(env, maxWait, i)
    ensures StepAt(env, maxWait, i).Done?
  {
  }

  /** A cycle with a code of 2000 or more and an on-time clock is pending. */
  lemma OnTimeProgressIsPending(env: Environment, maxWait: int, i: nat)
    requires Bounded(env, maxWait) && i < |env.queryReplies| && !Late(env, maxWait, i)
    requires CodeOf(env.queryReplies[i]).Ok? && CodeOf(env.queryReplies[i]).value >= PendingCodeFloor
    ensures StepAt(env, maxWait, i) == Pending
  {
  }

  /** A pending cycle hands the run over to the next cycle, which exists. */
  lemma PollContinues(c: AsrClient, taskId: string, env: Environment, maxWait: int,
                      whole: Outcome<seq<WordRecord>>, i: nat)
    requires Bounded(env, maxWait) && i < |env.queryReplies|
    requires PolledSoFar(c, taskId, env, maxWait, whole, i)
    requires StepAt(env, maxWait, i) == Pending
    ensures i + 1 < |env.queryReplies|
    ensures PolledSoFar(c, taskId, env, maxWait, whole, i + 1)
  {
  }

  /** The two effects of a cycle, appended one after the other, extend `i` cycles to `i + 1`. */
  lemma CycleAppends(before: seq<Event>, c: AsrClient, taskId: string, i: nat)
    ensures before + Cycles(c, taskId, i) + [Sleep(PollIntervalSeconds)]
              + [PostQuery(QueryBody(c, taskId), c.authorization)]
            == before + Cycles(c, taskId, i + 1)
  {
  }

  /** A final cycle ends the run with its own result, after exactly `i + 1` cycles of effects. */
  lemma PollStops(c: AsrClient, taskId: string, env: Environment, maxWait: int,
                  whole: Outcome<seq<WordRecord>>, i: nat)
    requires Bounded(env, maxWait) && i < |env.queryReplies|
    requires PolledSoFar(c, taskId, env, maxWait, whole, i)
    requires StepAt(env, maxWait, i).Done?
    ensures whole == Outcome(StepAt(env, maxWait, i).result, Cycles(c, taskId, i + 1))
  {
  }

  /**
   * The checks of one loop iteration, written as the source orders them: the
   * success code, then any other code below 2000, then the clock. It decides
   * exactly as Cycle.
   */
  method CheckReply(reply: QueryReply, now: int, startTime: int, maxWait: int) returns (step: Step)
    ensures step == Cycle(reply, now - startTime, maxWait)
  {
    var code := CodeOf(reply);
    if code.Err? {
      return Done(Err(code.error));
    }
    if code.value == SuccessCode {
      var results := ProcessResults(reply);
      return Done(results);
    } else if code.value < PendingCodeFloor {
      return Done(Err(TaskFailed(code.value)));
    }
    if now - startTime > maxWait {
      return Done(Err(TimedOut));
    }
    return Pending;
  }

  /**
   * `process_audio` as the source writes it: a loop that sleeps, queries,
   * and stops on the first reply CheckReply calls final. It behaves exactly
   * as ProcessAudioRun.
   */
  method ProcessAudio(c: AsrClient, filename: string, uid: string, env: Environment, maxWait: int)
    returns (result: Result<seq<WordRecord>, AsrError>, trace: seq<Event>)
    requires Bounded(env, maxWait)
    ensures Outcome(result, trace) == ProcessAudioRun(c, filename, uid, env, maxWait)
  {
    var submitted := SubmitTask(c, filename, uid, env.submitReply);
    trace := submitted.trace;
    if submitted.result.Err? {
      return Err(submitted.result.error), trace;
    }
    var taskId := submitted.result.value;
    var startTime := env.clock[0];
    ghost var before := trace;
    ghost var whole := PollFrom(c, taskId, env, maxWait, 0);
    assert ProcessAudioRun(c, filename, uid, env, maxWait) == Outcome(whole.result, before + whole.trace);
    assert Cycles(c, taskId, 0) + whole.trace == whole.trace;
    var i := 0;
    while true
      invariant 0 <= i < |env.queryReplies|
      invariant trace == before + Cycles(c, taskId, i)
      invariant PolledSoFar(c, taskId, env, maxWait, whole, i)
      decreases |env.queryReplies| - i
    {
      CycleAppends(before, c, taskId, i);
      trace := trace + [Sleep(PollIntervalSeconds)];
      trace := trace + [PostQuery(QueryBody(c, taskId), c.authorization)];
      var step := CheckReply(env.queryReplies[i], env.clock[i + 1], startTime, maxWait);
      if step.Done? {
        PollStops(c, taskId, env, maxWait, whole, i);
        return step.result, trace;
      }
      PollContinues(c, taskId, env, maxWait, whole, i);
      i := i + 1;
    }
  }

  /** `process_audio(audio_path)` called without `max_wait_time`: the budget is 300 seconds. */
  method ProcessAudioDefault(c: AsrClient, filename: string, uid: string, env: Environment)
    returns (result: Result<seq<WordRecord>, AsrError>, trace: seq<Event>)
    requires Bounded(env, DefaultMaxWaitSeconds)
    ensures Outcome(result, trace) == ProcessAudioRun(c, filename, uid, env, 300)
  {
    result, trace := ProcessAudio(c, filename, uid, env, DefaultMaxWaitSeconds);
  }

  // Properties of the loop

  /** Cycle effects alternate: a two-second sleep at every even position, the query at every odd one. */
  lemma {:induction false} CyclesShape(c: AsrClient, taskId: string, n: nat)
    ensures |Cycles(c, taskId, n)| == 2 * n
    ensures forall k :: 0 <= k < 2 * n ==>
      Cycles(c, taskId, n)[k]
      == if k % 2 == 0 then Sleep(PollIntervalSeconds) else PostQuery(QueryBody(c, taskId), c.authorization)
  {
    if n > 0 {
      CyclesShape(c, taskId, n - 1);
      var prev := Cycles(c, taskId, n - 1);
      assert Cycles(c, taskId, n) == prev + QueryCycle(c, taskId);
      forall k | 0 <= k < 2 * n
        ensures Cycles(c, taskId, n)[k]
          == if k % 2 == 0 then Sleep(PollIntervalSeconds) else PostQuery(QueryBody(c, taskId), c.authorization)
      {
        if k >= 2 * (n - 1) {
          assert Cycles(c, taskId, n)[k] == QueryCycle(c, taskId)[k - 2 * (n - 1)];
        }
      }
    }
  }

  /** Every cycle before `i` was pending, so the run has reached cycle `i`. */
  lemma {:induction false} PolledUpTo(c: AsrClient, taskId: string, env: Environment, maxWait: int, i: nat)
    requires Bounded(env, maxWait) && i < |env.queryReplies|
    requires forall j :: 0 <= j < i ==> StepAt(env, maxWait, j) == Pending
    ensures PolledSoFar(c, taskId, env, maxWait, PollFrom(c, taskId, env, maxWait, 0), i)
  {
    if i == 0 {
      assert Cycles(c, taskId, 0) + PollFrom(c, taskId, env, maxWait, 0).trace
          == PollFrom(c, taskId, env, maxWait, 0).trace;
    } else {
      PolledUpTo(c, taskId, env, maxWait, i - 1);
      PollContinues(c, taskId, env, maxWait, PollFrom(c, taskId, env, maxWait, 0), i - 1);
    }
  }

  /**
   * The first final cycle decides the run: if cycles before `k` were pending
   * and cycle `k` is final, the loop ran exactly `k + 1` cycles (one sleep and
   * one query each) and returns cycle `k`'s result.
   */
  lemma FirstFinalDecides(c: AsrClient, taskId: string, env: Environment, maxWait: int, k: nat)
    requires Bounded(env, maxWait) && k < |env.queryReplies|
    requires forall j :: 0 <= j < k ==> StepAt(env, maxWait, j) == Pending
    requires StepAt(env, maxWait, k).Done?
    ensures PollFrom(c, taskId, env, maxWait, 0) == Outcome(StepAt(env, maxWait, k).result, Cycles(c, taskId, k + 1))
  {
    PolledUpTo(c, taskId, env, maxWait, k);
    PollStops(c, taskId, env, maxWait, PollFrom(c, taskId, env, maxWait, 0), k);
  }

  /** The index of the first final cycle at or after cycle `i`, every cycle before it from `i` on pending. */
  function FirstFinalFrom(env: Environment, maxWait: int, i: nat): (k: nat)
    requires Bounded(env, maxWait) && i < |env.queryReplies|
    ensures i <= k < |env.queryReplies|
    ensures StepAt(env, maxWait, k).Done?
    ensures forall j :: i <= j < k ==> StepAt(env, maxWait, j) == Pending
    decreases |env.queryReplies| - i
  {
    if StepAt(env, maxWait, i).Done? then i
    else
      PendingIsOnTime(env, maxWait, i);
      FirstFinalFrom(env, maxWait, i + 1)
  }

  /** The index of the cycle that ends the loop: the first final one. */
  function FirstFinal(env: Environment, maxWait: int): (k: nat)
    requires Bounded(env, maxWait)
    ensures k < |env.queryReplies| && StepAt(env, maxWait, k).Done?
    ensures forall j :: 0 <= j < k ==> StepAt(env, maxWait, j) == Pending
  {
    FirstFinalFrom(env, maxWait, 0)
  }

  /**
   * Every run ends at the first final cycle: it returns that cycle's result
   * after exactly one sleep and one query per cycle up to it.
   */
  lemma PollStopsAtFirstFinal(c: AsrClient, taskId: string, env: Environment, maxWait: int)
    requires Bounded(env, maxWait)
    ensures PollFrom(c, taskId, env, maxWait, 0)
            == Outcome(StepAt(env, maxWait, FirstFinal(env, maxWait)).result,
                       Cycles(c, taskId, FirstFinal(env, maxWait) + 1))
  {
    FirstFinalDecides(c, taskId, env, maxWait, FirstFinal(env, maxWait));
  }

  /**
   * Code 1000 on query `k`, after pending cycles, returns the flattening of
   * that same reply after exactly `k + 1` queries, however late the clock is.
   */
  lemma SuccessReturnsThatReply(c: AsrClient, taskId: string, env: Environment, maxWait: int, k: nat)
    requires Bounded(env, maxWait) && k < |env.queryReplies|
    requires forall j :: 0 <= j < k ==> StepAt(env, maxWait, j) == Pending
    requires CodeOf(env.queryReplies[k]) == Ok(SuccessCode)
    ensures PollFrom(c, taskId, env, maxWait, 0)
            == Outcome(NormalizedResults(env.queryReplies[k]), Cycles(c, taskId, k + 1))
  {
    FirstFinalDecides(c, taskId, env, maxWait, k);
  }

  /**
   * A code below 2000 other than 1000 on query `k`, after pending cycles,
   * fails with that code after exactly `k + 1` queries, however late the clock is.
   */
  lemma FailureCarriesCode(c: AsrClient, taskId: string, env: Environment, maxWait: int, k: nat, code: int)
    requires Bounded(env, maxWait) && k < |env.queryReplies|
    requires forall j :: 0 <= j < k ==> StepAt(env, maxWait, j) == Pending
    requires CodeOf(env.queryReplies[k]) == Ok(code) && code != SuccessCode && code < PendingCodeFloor
    ensures PollFrom(c, taskId, env, maxWait, 0) == Outcome(Err(TaskFailed(code)), Cycles(c, taskId, k + 1))
  {
    FirstFinalDecides(c, taskId, env, maxWait, k);
  }

  /**
   * Once a deadline check has seen the budget exceeded, no further query is
   * issued: if the check after query `j` is late, the loop ends by cycle `j`,
   * so at most `j + 1` queries happen.
   */
  lemma DeadlineBoundsQueries(c: AsrClient, taskId: string, env: Environment, maxWait: int, j: nat)
    requires Bounded(env, maxWait) && j < |env.queryReplies| && Late(env, maxWait, j)
    ensures FirstFinal(env, maxWait) <= j
    ensures PollFrom(c, taskId, env, maxWait, 0).trace == Cycles(c, taskId, FirstFinal(env, maxWait) + 1)
  {
    LateIsFinal(env, maxWait, j);
    PollStopsAtFirstFinal(c, taskId, env, maxWait);
  }

  /**
   * A code of 2000 or more never fails the run by itself: while every reply
   * up to query `k` is in progress and no check up to it is late, the loop
   * goes on past cycle `k`.
   */
  lemma PendingKeepsPolling(c: AsrClient, taskId: string, env: Environment, maxWait: int, k: nat)
    requires Bounded(env, maxWait) && k < |env.queryReplies|
    requires forall j :: 0 <= j <= k ==>
      CodeOf(env.queryReplies[j]).Ok? && CodeOf(env.queryReplies[j]).value >= PendingCodeFloor
    requires forall j :: 0 <= j <= k ==> !Late(env, maxWait, j)
    ensures FirstFinal(env, maxWait) > k
    ensures PollFrom(c, taskId, env, maxWait, 0).trace == Cycles(c, taskId, FirstFinal(env, maxWait) + 1)
  {
    forall j | 0 <= j <= k ensures StepAt(env, maxWait, j) == Pending {
      OnTimeProgressIsPending(env, maxWait, j);
    }
    PollStopsAtFirstFinal(c, taskId, env, maxWait);
  }

  /**
   * A timeout happens only on a late check after a reply still in progress,
   * and every earlier reply was in progress and on time.
   */
  lemma TimeoutOnlyWhenLate(c: AsrClient, taskId: string, env: Environment, maxWait: int)
    requires Bounded(env, maxWait)
    requires PollFrom(c, taskId, env, maxWait, 0).result == Err(TimedOut)
    ensures Late(env, maxWait, FirstFinal(env, maxWait))
    ensures CodeOf(env.queryReplies[FirstFinal(env, maxWait)]).Ok?
    ensures CodeOf(env.queryReplies[FirstFinal(env, maxWait)]).value >= PendingCodeFloor
    ensures forall j :: 0 <= j < FirstFinal(env, maxWait) ==>
      && CodeOf(env.queryReplies[j]).Ok? && CodeOf(env.queryReplies[j]).value >= PendingCodeFloor
      && !Late(env, maxWait, j)
  {
    var k := FirstFinal(env, maxWait);
    PollStopsAtFirstFinal(c, taskId, env, maxWait);
    assert StepAt(env, maxWait, k) == Done(Err(TimedOut));
    forall j | 0 <= j < k
      ensures CodeOf(env.queryReplies[j]).Ok? && CodeOf(env.queryReplies[j]).value >= PendingCodeFloor
      ensures !Late(env, maxWait, j)
    {
      PendingIsOnTime(env, maxWait, j);
    }
  }

  /**
   * The converse of TimeoutOnlyWhenLate: replies still in progress, on time
   * before query `j` and late after it, time out after exactly `j + 1` cycles.
   */
  lemma TimeoutWhenLate(c: AsrClient, taskId: string, env: Environment, maxWait: int, j: nat)
    requires Bounded(env, maxWait) && j < |env.queryReplies| && Late(env, maxWait, j)
    requires forall i :: 0 <= i <= j ==>
      CodeOf(env.queryReplies[i]).Ok? && CodeOf(env.queryReplies[i]).value >= PendingCodeFloor
    requires forall i :: 0 <= i < j ==> !Late(env, maxWait, i)
    ensures PollFrom(c, taskId, env, maxWait, 0) == Outcome(Err(TimedOut), Cycles(c, taskId, j + 1))
  {
    forall i | 0 <= i < j ensures StepAt(env, maxWait, i) == Pending {
      OnTimeProgressIsPending(env, maxWait, i);
    }
    FirstFinalDecides(c, taskId, env, maxWait, j);
  }

  /**
   * The whole call, once the submission returned handle `id`: one upload, one
   * submission, then one sleep and one query for `id` per cycle up to the
   * first final one, whose result is returned.
   */
  lemma ProcessAudioPollsWithHandle(c: AsrClient, filename: string, uid: string, env: Environment,
                                    maxWait: int, id: string)
    requires Bounded(env, maxWait)
    requires HasUploadCredentials(c) && TaskIdOf(env.submitReply) == Ok(id)
    ensures ProcessAudioRun(c, filename, uid, env, maxWait)
            == Outcome(StepAt(env, maxWait, FirstFinal(env, maxWait)).result,
                       [Upload(filename),
                        PostSubmit(SubmitBody(c, uid, RawUrl(c.githubRepo.value, filename)), c.authorization)]
                       + Cycles(c, id, FirstFinal(env, maxWait) + 1))
  {
    PollStopsAtFirstFinal(c, id, env, maxWait);
  }

  /**
   * The scenario: the handle is "T1", two in-progress replies, then code 1000
   * with one word. The call returns that word, after one upload, one
   * submission and three cycles, each a two-second sleep followed by a query.
   */
  lemma HelloScenario(c: AsrClient, filename: string, uid: string, clock: seq<int>, maxWait: int)
    requires HasUploadCredentials(c)
    requires |clock| == 4 && clock[3] - clock[0] > maxWait
    requires clock[1] - clock[0] <= maxWait && clock[2] - clock[0] <= maxWait
    ensures
      var pending := QueryReply(Some(QueryResp(Some(2000), None)));
      var hello := QueryReply(Some(QueryResp(Some(1000),
                     Some([Utterance(Some([Word(Some("hello"), Some(0), Some(500))]))]))));
      var env := Environment(SubmitReply(Some(SubmitResp(Some("T1")))), [pending, pending, hello], clock);
      Bounded(env, maxWait)
      && ProcessAudioRun(c, filename, uid, env, maxWait)
         == Outcome(Ok([WordRecord("hello", 0, 500)]),
                    [Upload(filename),
                     PostSubmit(SubmitBody(c, uid, RawUrl(c.githubRepo.value, filename)), c.authorization)]
                    + Cycles(c, "T1", 3))
  {
    var pending := QueryReply(Some(QueryResp(Some(2000), None)));
    var w := Word(Some("hello"), Some(0), Some(500));
    var us := [Utterance(Some([w]))];
    var hello := QueryReply(Some(QueryResp(Some(1000), Some(us))));
    var env := Environment(SubmitReply(Some(SubmitResp(Some("T1")))), [pending, pending, hello], clock);
    assert StepAt(env, maxWait, 0) == Pending;
    assert StepAt(env, maxWait, 1) == Pending;
    SuccessReturnsThatReply(c, "T1", env, maxWait, 2);
    assert us[..0] == [];
    FlattenAt(us, 0, 0);
    assert Flatten(us).value == [WordRecord("hello", 0, 500)];
  }
}
