/** The generate, execute, diagnose and repair loop of main_new.py's `main` (lines 172-241):
    one reply is parsed and executed, and while the result shows a failure signal a repair
    request carrying the previous code and its output and errors is sent, and the corrected
    reply is parsed and executed in turn. */
module RepairLoop {
  import opened Types
  import opened PyStr
  import opened Parser
  import opened Executor
  import opened Classifier

  /** `st.session_state`: the conversation handle and the additional context read at startup. */
  datatype Session = Session(conversation: Option<ConversationId>, context: string)

  /** What the user typed, and the preference summary the preference service returned for it. */
  datatype Submission = Submission(command: string, category: string, preferences: string)

  /** What `send_message(user_input, conversation_id, context)` is given. */
  datatype Request = Request(command: string, context: string, conversation: Option<ConversationId>)

  /** What the repair prompt embeds (the previous code, its output followed by its errors,
      the command and the session context), and the handle `correct_code` is given. */
  datatype RepairRequest =
    RepairRequest(code: string, failure: string, command: string, context: string, conversation: ConversationId)

  /** The generation service: the first reply, and the reply to the n-th repair request. */
  datatype Generator = Generator(send: Request -> Reply, correct: (nat, RepairRequest) -> Reply)

  /** One pass of the loop: the reply, the program parsed from it, and what its execution reported. */
  datatype Attempt = Attempt(reply: Reply, program: Program, result: Execution)

  datatype Outcome =
    | Idle                                        // no command or no task category was entered
    | Unparsable(reply: Reply)                    // `parse_response` raised on this reply
    | Succeeded(output: string, artifacts: seq<Bytes>)
    | RetriesExhausted(last: Execution)           // the bound on repairs was reached

  /** The reply the loop obtains after the attempts `done`: the first one from `send_message`,
      each later one from `correct_code`, asked about the last attempt. */
  function NextReply(gen: Generator, session: Session, sub: Submission, done: seq<Attempt>): Reply
  {
    if done == [] then
      gen.send(Request(sub.command, sub.preferences, session.conversation))
    else
      var last := done[|done| - 1];
      gen.correct(|done|, RepairRequest(last.program.code, last.result.stdout + last.result.stderr,
                                        sub.command, session.context, last.reply.conversation))
  }

  /** What the loop sees of the n-th execution: the first one's errors are cleared when they
      mention "completed", the repairs' errors never are. */
  function Observed(backend: Backend, n: nat, program: Program): Execution
  {
    var e := Executed(backend, n, program.code, program.packages);
    if n == 0 then e.(stderr := ClearCompleted(e.stderr)) else e
  }

  /** `next` is the attempt the loop makes after the attempts `before`: the reply it asks
      for, parsed, and executed as the execution with that index. */
  ghost predicate StepFollows(gen: Generator, backend: Backend, session: Session, sub: Submission,
                              before: seq<Attempt>, next: Attempt)
  {
    && next.reply == NextReply(gen, session, sub, before)
    && ParseResponse(next.reply.text) == Some(next.program)
    && next.result == Observed(backend, |before|, next.program)
  }

  /** Every attempt in `done` follows the attempts before it. */
  ghost predicate IsTranscript(gen: Generator, backend: Backend, session: Session, sub: Submission, done: seq<Attempt>)
    decreases |done|
  {
    done == [] ||
    (IsTranscript(gen, backend, session, sub, done[..|done| - 1])
     && StepFollows(gen, backend, session, sub, done[..|done| - 1], done[|done| - 1]))
  }

  lemma {:induction false} TranscriptExtend(gen: Generator, backend: Backend, session: Session, sub: Submission,
                         done: seq<Attempt>, next: Attempt)
    requires IsTranscript(gen, backend, session, sub, done)
    requires StepFollows(gen, backend, session, sub, done, next)
    ensures IsTranscript(gen, backend, session, sub, done + [next])
  {
    assert (done + [next])[..|done|] == done;
  }

  /** Each attempt of a transcript follows the ones before it. */
  lemma {:induction false} TranscriptAt(gen: Generator, backend: Backend, session: Session, sub: Submission,
                                        done: seq<Attempt>, i: nat)
    requires IsTranscript(gen, backend, session, sub, done)
    requires i < |done|
    ensures StepFollows(gen, backend, session, sub, done[..i], done[i])
    decreases |done|
  {
    if i < |done| - 1 {
      var shorter := done[..|done| - 1];
      TranscriptAt(gen, backend, session, sub, shorter, i);
      assert shorter[..i] == done[..i] && shorter[i] == done[i];
    }
  }

  /** Every attempt in `attempts` showed a failure signal. */
  ghost predicate AllFailing(attempts: seq<Attempt>)
    decreases |attempts|
  {
    attempts == [] ||
    (AllFailing(attempts[..|attempts| - 1])
     && IsFailing(attempts[|attempts| - 1].result.stdout, attempts[|attempts| - 1].result.stderr))
  }

  /** Every attempt but the last of `done` failed. */
  lemma {:induction false} FailedBeforeLast(done: seq<Attempt>)
    requires done != [] && AllFailing(done[..|done| - 1])
    ensures forall i :: 0 <= i < |done| - 1 ==> IsFailing(done[i].result.stdout, done[i].result.stderr)
    decreases |done|
  {
    if 1 < |done| {
      var shorter := done[..|done| - 1];
      assert shorter[..|shorter| - 1] == done[..|done| - 2];
      FailedBeforeLast(shorter);
    }
  }

  /** One pass of the loop after the attempts `done`: obtain the next reply (`send_message`
      first, `correct_code` afterwards), parse it, and execute the program, clearing the
      first execution's errors when they mention "completed" (main_new.py:189-202, 236-241).
      None where `parse_response` raises. */
  method NextAttempt(gen: Generator, backend: Backend, session: Session, sub: Submission, done: seq<Attempt>)
    returns (reply: Reply, attempt: Option<Attempt>)
    ensures reply == NextReply(gen, session, sub, done)
    ensures attempt.None? <==> ParseResponse(reply.text).None?
    ensures attempt.Some? ==> StepFollows(gen, backend, session, sub, done, attempt.value)
  {
    if done == [] {
      reply := gen.send(Request(sub.command, sub.preferences, session.conversation));
    } else {
      var last := done[|done| - 1];
      var request := RepairRequest(last.program.code, last.result.stdout + last.result.stderr,
                                   sub.command, session.context, last.reply.conversation);
      reply := gen.correct(|done|, request);
    }
    var parsed := ParseResponse(reply.text);
    if parsed.None? {
      return reply, None;
    }
    var program := parsed.value;
    var result := ExecuteCode(backend, |done|, program.code, program.packages);
    if done == [] {
      result := result.(stderr := ClearCompleted(result.stderr));
    }
    attempt := Some(Attempt(reply, program, result));
  }

  /** The repair iterations of `main` (main_new.py:205-241) after the first attempt: while
      the last result shows a failure signal and fewer than `maxRepairs` repairs were made, the
      next attempt is made; the loop ends at the first result without a failure signal. */
  method RepairUntilPassing(gen: Generator, backend: Backend, session: Session, sub: Submission,
                            first: Attempt, maxRepairs: nat)
    returns (outcome: Outcome, done: seq<Attempt>)
    requires IsTranscript(gen, backend, session, sub, [first])
    ensures IsTranscript(gen, backend, session, sub, done)
    ensures 1 <= |done| <= maxRepairs + 1 && done[0] == first
    ensures !outcome.Idle?
    ensures AllFailing(done[..|done| - 1])
    ensures !IsFailing(done[|done| - 1].result.stdout, done[|done| - 1].result.stderr) ==> outcome.Succeeded?
    ensures outcome.Succeeded? ==>
      && !IsFailing(done[|done| - 1].result.stdout, done[|done| - 1].result.stderr)
      && outcome.output == done[|done| - 1].result.stdout
      && outcome.artifacts == done[|done| - 1].result.artifacts
    ensures outcome.Unparsable? ==>
      && |done| <= maxRepairs
      && outcome.reply == NextReply(gen, session, sub, done)
      && ParseResponse(outcome.reply.text) == None
    ensures outcome.RetriesExhausted? ==>
      && |done| == maxRepairs + 1
      && IsFailing(done[|done| - 1].result.stdout, done[|done| - 1].result.stderr)
      && outcome.last == done[|done| - 1].result
  {
    done := [first];
    var result := first.result;
    while IsFailing(result.stdout, result.stderr) && |done| <= maxRepairs
      invariant 1 <= |done| <= maxRepairs + 1 && done[0] == first
      invariant result == done[|done| - 1].result
      invariant IsTranscript(gen, backend, session, sub, done)
      invariant AllFailing(done[..|done| - 1])
    {
      var reply, attempt := NextAttempt(gen, backend, session, sub, done);
      if attempt.None? {
        return Unparsable(reply), done;
      }
      TranscriptExtend(gen, backend, session, sub, done, attempt.value);
      assert (done + [attempt.value])[..|done|] == done;
      done := done + [attempt.value];
      result := attempt.value.result;
    }
    if IsFailing(result.stdout, result.stderr) {
      outcome := RetriesExhausted(result);
    } else {
      outcome := Succeeded(result.stdout, result.artifacts);
    }
  }

  /** `main` once a command and a task category are entered, with at most `maxRepairs`
      repair iterations. It returns the outcome, the transcript of attempts the user is shown,
      and the session after the first reply's handle is stored. */
  method Run(gen: Generator, backend: Backend, session: Session, sub: Submission, maxRepairs: nat)
    returns (outcome: Outcome, done: seq<Attempt>, session': Session)
    ensures IsTranscript(gen, backend, session, sub, done)
    ensures outcome.Idle? <==> sub.command == [] || sub.category == []
    ensures outcome.Idle? ==> done == [] && session' == session
    ensures !outcome.Idle? ==>
      session' == session.(conversation := Some(NextReply(gen, session, sub, []).conversation))
    ensures |done| <= maxRepairs + 1
    ensures forall i :: 0 <= i < |done| - 1 ==> IsFailing(done[i].result.stdout, done[i].result.stderr)
    ensures done != [] && !IsFailing(done[|done| - 1].result.stdout, done[|done| - 1].result.stderr) ==> outcome.Succeeded?
    ensures outcome.Succeeded? ==>
      && done != []
      && !IsFailing(done[|done| - 1].result.stdout, done[|done| - 1].result.stderr)
      && outcome.output == done[|done| - 1].result.stdout
      && outcome.artifacts == done[|done| - 1].result.artifacts
    ensures outcome.Unparsable? ==>
      && |done| <= maxRepairs
      && outcome.reply == NextReply(gen, session, sub, done)
      && ParseResponse(outcome.reply.text) == None
    ensures outcome.RetriesExhausted? ==>
      && |done| == maxRepairs + 1
      && IsFailing(done[|done| - 1].result.stdout, done[|done| - 1].result.stderr)
      && outcome.last == done[|done| - 1].result
  {
    if sub.command == [] || sub.category == [] {
      return Idle, [], session;
    }
    var reply, attempt := NextAttempt(gen, backend, session, sub, []);
    session' := session.(conversation := Some(reply.conversation));
    if attempt.None? {
      return Unparsable(reply), [], session';
    }
    TranscriptExtend(gen, backend, session, sub, [], attempt.value);
    outcome, done := RepairUntilPassing(gen, backend, session, sub, attempt.value, maxRepairs);
    FailedBeforeLast(done);
  }

  /** A repair whose errors mention "completed" is still a failure: the clearing applies to
      the first execution only. */
  lemma {:induction false} RepairErrorsNeverCleared(gen: Generator, backend: Backend, session: Session, sub: Submission,
                                 done: seq<Attempt>, i: nat)
    requires IsTranscript(gen, backend, session, sub, done)
    requires 0 < i < |done|
    requires Contains(Executed(backend, i, done[i].program.code, done[i].program.packages).stderr, Completed)
    ensures done[i].result.stderr != [] && IsFailing(done[i].result.stdout, done[i].result.stderr)
  {
    TranscriptAt(gen, backend, session, sub, done, i);
  }

  /** When the first execution's errors mention "completed" they are dropped, and only the
      output markers decide whether a repair follows. */
  lemma {:induction false} FirstErrorsCleared(gen: Generator, backend: Backend, session: Session, sub: Submission,
                           done: seq<Attempt>)
    requires IsTranscript(gen, backend, session, sub, done)
    requires done != []
    requires Contains(Executed(backend, 0, done[0].program.code, done[0].program.packages).stderr, Completed)
    ensures done[0].result.stderr == []
    ensures IsFailing(done[0].result.stdout, done[0].result.stderr) <==> HasFailureMarker(done[0].result.stdout)
  {
    TranscriptAt(gen, backend, session, sub, done, 0);
  }

  /** With the local strategy no attempt has errors or artifacts, so only the output markers
      trigger repairs and a successful run shows no artifacts. */
  lemma {:induction false} LocalRunsJudgedByOutput(gen: Generator, backend: Backend, session: Session, sub: Submission,
                                done: seq<Attempt>, i: nat)
    requires IsTranscript(gen, backend, session, sub, done)
    requires backend.executeLocally && i < |done|
    ensures done[i].result.stderr == [] && done[i].result.artifacts == []
    ensures IsFailing(done[i].result.stdout, done[i].result.stderr) <==> HasFailureMarker(done[i].result.stdout)
  {
    TranscriptAt(gen, backend, session, sub, done, i);
  }

  /** Each repair request carries the previous attempt's code, its output followed by its
      errors, the command, the session context and the previous reply's handle. */
  lemma {:induction false} RepairCarriesFailure(gen: Generator, backend: Backend, session: Session, sub: Submission,
                             done: seq<Attempt>, i: nat)
    requires IsTranscript(gen, backend, session, sub, done)
    requires 0 < i < |done|
    ensures done[i].reply == gen.correct(i, RepairRequest(done[i - 1].program.code,
                                                          done[i - 1].result.stdout + done[i - 1].result.stderr,
                                                          sub.command, session.context,
                                                          done[i - 1].reply.conversation))
  {
    var before := done[..i];
    assert |before| == i && before[i - 1] == done[i - 1];
    TranscriptAt(gen, backend, session, sub, done, i);
    ReplyFollows(gen, backend, session, sub, before, done[i], done[i - 1]);
  }

  lemma ReplyFollows(gen: Generator, backend: Backend, session: Session, sub: Submission,
                     before: seq<Attempt>, next: Attempt, prev: Attempt)
    requires StepFollows(gen, backend, session, sub, before, next)
    requires before != [] && before[|before| - 1] == prev
    ensures next.reply == gen.correct(|before|, RepairRequest(prev.program.code, prev.result.stdout + prev.result.stderr,
                                                              sub.command, session.context, prev.reply.conversation))
  {
  }

  /** Every executed program, the first and each repair, is the one `parse_response` extracts
      from that attempt's reply, and it is executed with the attempt's index. */
  lemma {:induction false} AttemptsRunParsedReplies(gen: Generator, backend: Backend, session: Session, sub: Submission,
                                 done: seq<Attempt>, i: nat)
    requires IsTranscript(gen, backend, session, sub, done)
    requires i < |done|
    ensures ParseResponse(done[i].reply.text) == Some(done[i].program)
    ensures done[i].result == Observed(backend, i, done[i].program)
    ensures 0 < i ==> done[i].result == Executed(backend, i, done[i].program.code, done[i].program.packages)
  {
    TranscriptAt(gen, backend, session, sub, done, i);
  }
}
