# genly_execute_e2b in Dafny

A model of the code-generation executor of genly_execute_e2b. A user enters a command
(and, in `main_new.py`, a task category). A language model is asked for a reply that
holds a "```python" block and an optional "```pip" block. The program extracts both
blocks, installs the packages and runs the code, either locally or in a hosted e2b
sandbox, and collects the files the run produced. While the result shows a failure
signal, it asks the model for a corrected program and runs that instead. `main.py` is
the earlier variant of the same loop: it asks for corrections but keeps running the
code it extracted first.

Modules:

- `Types`: the values that pass between the parts: replies, programs and executions.
- `PyStr`: the Python string operations the source relies on. These are `str.find`
  with a start index, `str.strip` with Python's whitespace set, and slicing with
  clamped bounds.
- `Parser`: `parse_response` and the identical inline extraction in `main.py`.
- `Executor`: `execute_code`. This covers the `packages[12:]` install argument, the
  local and hosted strategies, and the artifact download loop.
- `Classifier`: the loop guards of both variants and the clearing of errors that
  mention "completed".
- `RepairLoop`: `main` of `main_new.py`, as a method over a transcript of attempts.
- `LegacyLoop`: `main` of `main.py`.

The language model, the sandbox and the local run's log are parameters of the model.
Every service that is called more than once takes the index of the call. These are the
corrections, the sandbox run, the local log, and the downloads, which are indexed by the
execution whose sandbox session they come from. So two calls with equal arguments may
still answer differently. The first reply in `main_new.py` is requested once per run,
so it takes no index. The loops in the source are unbounded. Here
they take a bound `maxRepairs` on correction rounds and end in `RetriesExhausted`
when the bound is reached.

## Model

| member | source | states |
|---|---|---|
| PyStr.FindIsFirst | main_new.py:148-151 | `find` returns -1 exactly when the pattern occurs nowhere at or after the start; otherwise it returns the first occurrence at or after the start |
| PyStr.FindReturnsFirst | main_new.py:148-151 | the first occurrence at or after the start is what `find` returns |
| PyStr.FindMissing | main_new.py:148-151 | no occurrence at or after the start makes `find` return -1 |
| PyStr.ContainsAt | main_new.py:201 | an occurrence anywhere makes `find(...) != -1` true |
| PyStr.TrimStartDropsLeadingSpace | main_new.py:155 | left stripping leaves a suffix; what it drops is all whitespace, and what it keeps does not start with whitespace |
| PyStr.TrimEndDropsTrailingSpace | main_new.py:155 | right stripping leaves a prefix; what it drops is all whitespace, and what it keeps does not end with whitespace |
| PyStr.StripTrimsBothEnds | main_new.py:155 | `strip()` leaves no whitespace at either end and is idempotent |
| PyStr.StripIsSlice | main_new.py:155 | `strip()` is exactly the slice between whitespace-only margins whose ends are not whitespace |
| PyStr.SliceFrom | main_new.py:93 | `s[n:]` is the suffix of length `max(0, len(s) - n)` |
| PyStr.Slice | main_new.py:155 | `s[lo:hi]` is `s[lo..hi]` for in-range bounds and empty when `hi <= lo` |
| Parser.NoCloserInsideTag | main_new.py:149 | no "```" starts inside an opening fence whose tag has no backquote |
| Parser.TagsAreFences | main_new.py:155-158 | the offsets 9 and 6 are the lengths of "```python" and "```pip" |
| Parser.CloserAfterTag | main_new.py:148-151 | the closing "```" found after an opening fence lies at or past the end of the fence, so the block slice is well formed and possibly empty |
| Parser.ParseCodeBlock | main_new.py:148-149 | with "```python" first at `cs` and the next "```" at `ce`, parsing succeeds, `cs + 9 <= ce`, and the code is the stripped `response[cs+9:ce]` |
| Parser.NoCodeFenceNoProgram | main_new.py:153-159 | with no "```python" fence there is no program, where the source raises |
| Parser.UnclosedCodeFenceNoProgram | main_new.py:153-159 | with no "```" after the first "```python" there is no program |
| Parser.ParsePackageBlock | main_new.py:150-155 | with "```pip" first at `ps` and the next "```" at `pe`, the packages are the stripped `response[ps+6:pe]`, wherever the block lies relative to the code block |
| Parser.NoPipFenceNoPackages | main_new.py:150-157 | with no "```pip" fence the packages are None, even though a "```" found from index 0 exists |
| Parser.UnclosedPipFenceNoPackages | main_new.py:150-157 | with no "```" after the first "```pip" the packages are None |
| Parser.CodeFenceIsNotPipFence | main_new.py:148-150 | a "```python" fence never matches "```pip" at the same index |
| Executor.InstallArgumentIsSuffix | main_new.py:92-93 | an install happens iff the package line is present and non-empty; its argument is the suffix after the first 12 characters, empty when the line has at most 12 |
| Executor.InstallArgumentOfPipLine | main_new.py:105-106 | for a line "pip install " followed by names, the install argument is exactly the names |
| Executor.ShortLineInstallsEmptyArgument | main.py:43-45 | a non-empty line of at most 12 characters still installs, with the empty argument |
| Executor.DownloadsAt | main.py:48-51 | there is one download per produced file, in order, each being that file's content as fetched from the session of the execution that produced it |
| Executor.DownloadsSameSession | main_new.py:104-113 | downloads that do not depend on the session give the same contents in every session |
| Executor.CollectArtifacts | main.py:48-51 | the loop appends the download of each produced file in order: the same length, with the i-th entry being the i-th file's content |
| Executor.RemoteExecute | main_new.py:104-115 | the hosted branch reports the sandbox's output and errors for the install argument and the code, with one artifact per produced file |
| Executor.ExecuteCode | main_new.py:89-115 | the local strategy reports the log as output, with no errors and no artifacts; the hosted strategy reports what the sandbox run returned |
| Classifier.FailingMeansErrorsOrMarker | main_new.py:205 | the loop guard holds iff the errors are non-empty or "Failed to retrieve", "Status code:" or "Traceback" occurs in the output |
| Classifier.FailureExamples | main_new.py:205 | output "Status code: 404" with no errors fails, and output "42" with no errors does not |
| Classifier.ClearCompletedMeans | main_new.py:201-202 | when "completed" occurs anywhere in the first run's errors they become empty; when it occurs nowhere they are kept unchanged |
| Classifier.ClearedRunJudgedByOutput | main_new.py:201-205 | after clearing, a run whose errors mention "completed" fails iff its output has a failure marker |
| Classifier.UnclearedCompletedFails | main_new.py:205 | errors that mention "completed" and are not cleared always fail |
| Classifier.LegacyGuardIsWeaker | main.py:95 | every run `main.py` repairs is repaired by `main_new.py`, but a traceback on the output with no errors is not repaired by `main.py` |
| RepairLoop.TranscriptAt | main_new.py:205-241 | every attempt of a transcript follows the attempts before it |
| RepairLoop.NextAttempt | main_new.py:189-202 | one pass of the loop asks `send_message` first and `correct_code` afterwards; no attempt exactly when `parse_response` raises; otherwise the program parsed from the reply is executed with the pass's index, and the first run's "completed" errors are cleared |
| RepairLoop.RepairUntilPassing | main_new.py:205-241 | after a first attempt, repairs follow while the last result fails and the bound allows. Every attempt but the last failed. A non-failing last attempt gives its output and artifacts. An unparsable correction stops the loop. The bound is reached only by a failing attempt |
| RepairLoop.Run | main_new.py:172-241 | nothing happens without a command and a category. The first reply's handle is stored in the session. Every attempt but the last failed. A non-failing last attempt ends the loop with its output and artifacts. An unparsable reply stops the run. The bound is reached only by failing attempts |
| RepairLoop.RepairErrorsNeverCleared | main_new.py:236-241 | a repair's errors are never cleared: when they mention "completed" they are non-empty and the attempt fails |
| RepairLoop.FirstErrorsCleared | main_new.py:200-202 | the first execution's errors that mention "completed" are dropped, and only the output markers decide whether a repair follows |
| RepairLoop.LocalRunsJudgedByOutput | main_new.py:102 | with the local strategy no attempt has errors or artifacts, so only the output markers trigger repairs |
| RepairLoop.RepairCarriesFailure | main_new.py:209-236 | the i-th repair request carries the previous code, its output followed by its errors, the command, the session context and the previous reply's handle |
| RepairLoop.AttemptsRunParsedReplies | main_new.py:191-241 | every executed program is what `parse_response` extracts from that attempt's reply. Its whole result (output, errors and artifacts) is what `execute_code` reports for the execution with that index, with "completed" errors cleared on the first run only |
| LegacyLoop.CorrectionAt | main.py:96 | the i-th correction message embeds the code and the errors of the i-th execution, sent with the previous reply's handle |
| LegacyLoop.CorrectAndRerun | main.py:90-99 | the executions are of the same code and packages at every round. Each correction embeds the last errors. Every execution but the last had errors. The loop stops at the first run without errors or at the bound |
| LegacyLoop.Run | main.py:57-104 | nothing happens without a command. The first reply's handle is stored. Nothing is executed without a closed "```python" block. Every executed program is the one extracted from the first reply. The loop ends at the first run without errors |
| LegacyLoop.SameAnswerKeepsFailing | main.py:95-97 | as the corrected reply is never parsed, a sandbox whose runs and downloads answer the same code the same way at every execution keeps failing once the first run failed |

## Left out

- The Streamlit page: titles, text inputs, expanders, spinners, and the display of
  responses, errors and artifacts. Only the two inputs and the stored conversation
  handle are modelled.
- The Anthropic calls `send_message`, `correct_code` and `get_llm_analysis`. Their
  replies are parameters of the model. The wording of the prompts is not modelled. The
  repair request is the record of the fields the prompt embeds. The closing analysis
  (main_new.py:247-248) only displays text and is left out.
- The preference service in `utils/genlyApi.py`: its summary is an input
  (`Submission.preferences`). `utils/genlyApi.py` is not part of this model.
- The e2b sandbox, and the local strategy's `os.system` calls and temporary files.
  Each strategy is a function from the call index, the install argument and the code
  to what the run reports. Closing the sandbox and `pip3 freeze` are not modelled.
- `cleanup`: it only deletes temporary files.
- The decoding of artifacts into images with PIL.
- Environment and configuration loading, including the model name, token limit and
  temperature.
- `asyncio`: the control flow is sequential.
- RepairLoop.Run: the source loops until a run stops failing. The model stops after
  `maxRepairs` repairs with `RetriesExhausted`, so a run that never stops failing is
  not modelled.
- LegacyLoop.Run: also bounded by `maxRepairs`, for the same reason.
- RepairLoop.Run: where `parse_response` raises, the page stops with an exception. The
  model returns `Unparsable` with the reply instead.
- PyStr.Find: Python's negative start indices are not modelled. The source never
  passes one. Its only start arguments are `code_start + 1` and `pip_start + 1`
  (main_new.py:149,151; main.py:78,80), and these are at least 0 because `find`
  never returns less than -1.
- Failing foreign calls. The generator, the sandbox, the local log and `download`
  are total functions here. In the source, an exception ends the page, and the model
  does not express that. The calls that can raise are `send_message`, `correct_code`,
  the preference service's HTTP request, `e2b.CodeInterpreter(...)`,
  `install_python_packages`, `run_python` and `artifact.download`.
