/** main.py's `main` (lines 57-104), the earlier variant of the loop: the code block is
    extracted once, and while the execution reports errors a correction is requested, but the
    corrected reply is never parsed, so the same code and packages are executed again. */
module LegacyLoop {
  import opened Types
  import opened Parser
  import opened Executor
  import opened Classifier

  /** What main.py sends: the user's command, or the correction message that embeds the code
      and the last errors (main.py:96). */
  datatype Message = Command(text: string) | Correction(code: string, errors: string)

  /** The generation service: the reply to the n-th message of the run, sent with a handle. */
  datatype Generator = Generator(send: (nat, Message, Option<ConversationId>) -> Reply)

  datatype Outcome =
    | Idle                                // no command was entered
    | NoCode(reply: Reply)                // no closed "```python" block: nothing is executed
    | Settled(last: Execution)            // the last execution reported no errors
    | RetriesExhausted(last: Execution)   // the bound on repairs was reached

  /** The handle the i-th correction request is sent with: the first reply's, then each
      correction's in turn. */
  function HandleBefore(first: Reply, corrections: seq<Reply>, i: nat): ConversationId
    requires i <= |corrections|
  {
    if i == 0 then first.conversation else corrections[i - 1].conversation
  }

  /** Each correction in `corrections` is the reply to the message that embeds `code` and the
      errors of the execution before it, sent with the handle of the reply before it. */
  ghost predicate CorrectionsFollow(gen: Generator, code: string, runs: seq<Execution>, first: Reply,
                                    corrections: seq<Reply>)
    requires |corrections| <= |runs|
    decreases |corrections|
  {
    var n := |corrections|;
    n == 0 ||
    (CorrectionsFollow(gen, code, runs, first, corrections[..n - 1])
     && corrections[n - 1] == gen.send(n, Correction(code, runs[n - 1].stderr),
                                       Some(HandleBefore(first, corrections, n - 1))))
  }

  /** The i-th correction request carried the code and the errors of the i-th execution. */
  lemma {:induction false} CorrectionAt(gen: Generator, code: string, runs: seq<Execution>, first: Reply,
                                        corrections: seq<Reply>, i: nat)
    requires |corrections| <= |runs|
    requires CorrectionsFollow(gen, code, runs, first, corrections)
    requires i < |corrections|
    ensures corrections[i] == gen.send(i + 1, Correction(code, runs[i].stderr),
                                       Some(HandleBefore(first, corrections, i)))
    decreases |corrections|
  {
    var n := |corrections|;
    if i < n - 1 {
      CorrectionAt(gen, code, runs, first, corrections[..n - 1], i);
    }
  }

  /** Extending the runs and the corrections keeps the earlier corrections in order. */
  lemma CorrectionsExtend(gen: Generator, code: string, runs: seq<Execution>, first: Reply,
                          corrections: seq<Reply>, next: Reply, result: Execution)
    requires |corrections| < |runs|
    requires CorrectionsFollow(gen, code, runs, first, corrections)
    requires next == gen.send(|corrections| + 1, Correction(code, runs[|corrections|].stderr),
                              Some(HandleBefore(first, corrections, |corrections|)))
    ensures CorrectionsFollow(gen, code, runs + [result], first, corrections + [next])
    decreases |corrections|
  {
    var n := |corrections|;
    assert (corrections + [next])[..n] == corrections;
    if n > 0 {
      CorrectionsWiden(gen, code, runs, first, corrections, result);
    }
  }

  /** Appending a run does not disturb corrections that only look at earlier runs. */
  lemma {:induction false} CorrectionsWiden(gen: Generator, code: string, runs: seq<Execution>, first: Reply,
                                            corrections: seq<Reply>, result: Execution)
    requires |corrections| <= |runs|
    requires CorrectionsFollow(gen, code, runs, first, corrections)
    ensures CorrectionsFollow(gen, code, runs + [result], first, corrections)
    decreases |corrections|
  {
    var n := |corrections|;
    if n > 0 {
      CorrectionsWiden(gen, code, runs, first, corrections[..n - 1], result);
      assert (runs + [result])[n - 1] == runs[n - 1];
    }
  }

  /** The first `count` executions of the same code and packages, in order. */
  function Reruns(sandbox: RemoteSandbox, code: string, packages: Option<string>, count: nat): seq<Execution>
  {
    if count == 0 then []
    else Reruns(sandbox, code, packages, count - 1) + [RemoteExecution(sandbox, count - 1, code, packages)]
  }

  /** The i-th rerun is the i-th execution of the same code and packages. */
  lemma {:induction false} RerunsAt(sandbox: RemoteSandbox, code: string, packages: Option<string>, count: nat)
    ensures |Reruns(sandbox, code, packages, count)| == count
    ensures forall i :: 0 <= i < count ==> Reruns(sandbox, code, packages, count)[i] == RemoteExecution(sandbox, i, code, packages)
  {
    if count > 0 {
      RerunsAt(sandbox, code, packages, count - 1);
    }
  }

  /** The correction rounds of `main` (main.py:91-104): while the last execution reports
      errors and fewer than `maxRepairs` rounds were made, a correction is requested with the
      last errors and the same code and packages are executed again. */
  method CorrectAndRerun(gen: Generator, sandbox: RemoteSandbox, first: Reply, code: string,
                         packages: Option<string>, maxRepairs: nat)
    returns (runs: seq<Execution>, corrections: seq<Reply>)
    ensures 1 <= |runs| == |corrections| + 1 <= maxRepairs + 1
    ensures runs == Reruns(sandbox, code, packages, |runs|)
    ensures forall i :: 0 <= i < |runs| ==> runs[i] == RemoteExecution(sandbox, i, code, packages)
    ensures CorrectionsFollow(gen, code, runs, first, corrections)
    ensures forall i :: 0 <= i < |runs| - 1 ==> LegacyIsFailing(runs[i].stdout, runs[i].stderr)
    ensures LegacyIsFailing(runs[|runs| - 1].stdout, runs[|runs| - 1].stderr) ==> |runs| == maxRepairs + 1
  {
    var result := RemoteExecute(sandbox, 0, code, packages);
    runs, corrections := [result], [];
    var handle := first.conversation;
    while LegacyIsFailing(result.stdout, result.stderr) && |runs| <= maxRepairs
      invariant 1 <= |runs| == |corrections| + 1 <= maxRepairs + 1
      invariant result == runs[|runs| - 1]
      invariant handle == HandleBefore(first, corrections, |corrections|)
      invariant runs == Reruns(sandbox, code, packages, |runs|)
      invariant CorrectionsFollow(gen, code, runs, first, corrections)
      invariant forall i :: 0 <= i < |runs| - 1 ==> LegacyIsFailing(runs[i].stdout, runs[i].stderr)
    {
      var correction := gen.send(|runs|, Correction(code, result.stderr), Some(handle));
      handle := correction.conversation;
      result := RemoteExecute(sandbox, |runs|, code, packages);
      CorrectionsExtend(gen, code, runs, first, corrections, correction, result);
      corrections := corrections + [correction];
      runs := runs + [result];
    }
    RerunsAt(sandbox, code, packages, |runs|);
  }

  /** `main` once a command is entered, with at most `maxRepairs` correction rounds. Besides
      the outcome it returns the first reply, the programs handed to `execute_code`, what each
      execution reported, the correction replies, and the stored conversation handle. */
  method Run(gen: Generator, sandbox: RemoteSandbox, conversation: Option<ConversationId>,
             command: string, maxRepairs: nat)
    returns (outcome: Outcome, first: Option<Reply>, executed: seq<Program>, runs: seq<Execution>,
             corrections: seq<Reply>, conversation': Option<ConversationId>)
    ensures command == [] <==> outcome.Idle?
    ensures command == [] ==> first == None && executed == [] && conversation' == conversation
    ensures command != [] ==>
      && first == Some(gen.send(0, Command(command), conversation))
      && conversation' == Some(first.value.conversation)
    ensures outcome.NoCode? <==> first.Some? && ParseResponse(first.value.text).None?
    ensures outcome.NoCode? ==> outcome.reply == first.value && executed == []
    ensures |executed| == |runs| && |runs| <= maxRepairs + 1
    ensures |corrections| == if executed == [] then 0 else |runs| - 1
    ensures executed != [] ==> first.Some?
    ensures forall i :: 0 <= i < |executed| ==> Some(executed[i]) == ParseResponse(first.value.text)
    ensures forall i :: 0 <= i < |runs| ==>
      runs[i] == RemoteExecution(sandbox, i, executed[i].code, executed[i].packages)
    ensures executed != [] ==> CorrectionsFollow(gen, executed[0].code, runs, first.value, corrections)
    ensures forall i :: 0 <= i < |runs| - 1 ==> LegacyIsFailing(runs[i].stdout, runs[i].stderr)
    ensures outcome.Settled? || outcome.RetriesExhausted? ==> runs != [] && outcome.last == runs[|runs| - 1]
    ensures outcome.Settled? <==> runs != [] && !LegacyIsFailing(runs[|runs| - 1].stdout, runs[|runs| - 1].stderr)
    ensures outcome.RetriesExhausted? ==> |runs| == maxRepairs + 1
  {
    executed, runs, corrections := [], [], [];
    if command == [] {
      return Idle, None, executed, runs, corrections, conversation;
    }
    var reply := gen.send(0, Command(command), conversation);
    first, conversation' := Some(reply), Some(reply.conversation);
    var parsed := ParseResponse(reply.text);
    if parsed.None? {
      return NoCode(reply), first, executed, runs, corrections, conversation';
    }
    runs, corrections := CorrectAndRerun(gen, sandbox, reply, parsed.value.code, parsed.value.packages, maxRepairs);
    executed := seq(|runs|, _ => parsed.value);
    var last := runs[|runs| - 1];
    if LegacyIsFailing(last.stdout, last.stderr) {
      outcome := RetriesExhausted(last);
    } else {
      outcome := Settled(last);
    }
  }

  /** Because the corrected reply is never parsed, a sandbox that answers the same code the
      same way at every execution (its run and its downloads) keeps failing once the first
      execution failed: every correction round re-runs code whose errors are already known. */
  lemma {:induction false} SameAnswerKeepsFailing(sandbox: RemoteSandbox, code: string, packages: Option<string>,
                                                  runs: seq<Execution>)
    requires forall n: nat, install, c :: sandbox.run(n, install, c) == sandbox.run(0, install, c)
    requires forall n: nat, ref :: sandbox.download(n, ref) == sandbox.download(0, ref)
    requires forall i :: 0 <= i < |runs| ==> runs[i] == RemoteExecution(sandbox, i, code, packages)
    requires runs != [] && LegacyIsFailing(runs[0].stdout, runs[0].stderr)
    ensures forall i :: 0 <= i < |runs| ==> runs[i] == runs[0] && LegacyIsFailing(runs[i].stdout, runs[i].stderr)
  {
    forall i | 0 <= i < |runs|
      ensures runs[i] == runs[0]
    {
      var run := sandbox.run(i, InstallArgument(packages), code);
      assert run == sandbox.run(0, InstallArgument(packages), code);
      DownloadsSameSession(run.produced, sandbox.download, i, 0);
    }
  }
}
