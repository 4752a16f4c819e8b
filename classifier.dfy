/** The failure signals that decide whether the repair loop goes round again. */
module Classifier {
  import opened PyStr

  const FailedToRetrieve := "Failed to retrieve"
  const StatusCode := "Status code:"
  const Traceback := "Traceback"

  /** The output markers main_new.py treats as failure. */
  const FailureMarkers := [FailedToRetrieve, StatusCode, Traceback]

  /** The word whose presence in the first run's errors clears them. */
  const Completed := "completed"

  /** Some failure marker occurs somewhere in the output. */
  predicate HasFailureMarker(output: string)
  {
    Contains(output, FailedToRetrieve) || Contains(output, StatusCode) || Contains(output, Traceback)
  }

  /** The guard of the repair loop at main_new.py:205. */
  predicate IsFailing(output: string, errors: string)
  {
    errors != [] || HasFailureMarker(output)
  }

  /** A run fails exactly when it has errors or one of the markers occurs somewhere in its
      output. */
  lemma FailingMeansErrorsOrMarker(output: string, errors: string)
    ensures IsFailing(output, errors) <==>
      errors != [] || exists m, k :: m in FailureMarkers && OccursAt(output, m, k)
  {
    FindIsFirst(output, FailedToRetrieve, 0);
    FindIsFirst(output, StatusCode, 0);
    FindIsFirst(output, Traceback, 0);
    if exists m, k :: m in FailureMarkers && OccursAt(output, m, k) {
      var m, k :| m in FailureMarkers && OccursAt(output, m, k);
      ContainsAt(output, m, k);
    }
  }

  /** The guard of the repair loop at main.py:95: only the errors are consulted. */
  predicate LegacyIsFailing(output: string, errors: string)
  {
    errors != []
  }

  /** main_new.py:201-202: errors that mention "completed" are cleared. */
  function ClearCompleted(errors: string): (r: string)
    ensures Contains(errors, Completed) ==> r == []
    ensures !Contains(errors, Completed) ==> r == errors
  {
    if Find(errors, Completed, 0) != -1 then "" else errors
  }

  /** The first run's errors are dropped exactly when "completed" occurs somewhere in them,
      and are otherwise kept unchanged. */
  lemma ClearCompletedMeans(errors: string)
    ensures (exists k :: OccursAt(errors, Completed, k)) ==> ClearCompleted(errors) == []
    ensures (forall k :: !OccursAt(errors, Completed, k)) ==> ClearCompleted(errors) == errors
  {
    FindIsFirst(errors, Completed, 0);
    if exists k :: OccursAt(errors, Completed, k) {
      var k :| OccursAt(errors, Completed, k);
      ContainsAt(errors, Completed, k);
    }
  }

  /** A status line in the output is a failure even with no errors; a plain value is not. */
  lemma FailureExamples()
    ensures IsFailing("Status code: 404", "")
    ensures !IsFailing("42", "")
  {
    var s := StatusCode + " 404";
    assert s == "Status code: 404";
    assert s[..|StatusCode|] == StatusCode;
    ContainsAt(s, StatusCode, 0);
  }

  /** After clearing, errors that mention "completed" never cause a repair: only the output
      markers decide. */
  lemma ClearedRunJudgedByOutput(output: string, errors: string)
    requires Contains(errors, Completed)
    ensures IsFailing(output, ClearCompleted(errors)) == HasFailureMarker(output)
  {
  }

  /** Uncleared errors always mean failure, even when they mention "completed". */
  lemma UnclearedCompletedFails(output: string, errors: string)
    requires Contains(errors, Completed)
    ensures IsFailing(output, errors)
  {
  }

  /** Every run main.py repairs is also repaired by main_new.py, but not conversely: a
      traceback on standard output with empty errors ends main.py's loop. */
  lemma LegacyGuardIsWeaker(output: string, errors: string)
    ensures LegacyIsFailing(output, errors) ==> IsFailing(output, errors)
    ensures IsFailing(Traceback, "") && !LegacyIsFailing(Traceback, "")
  {
    assert Traceback[..|Traceback|] == Traceback;
    ContainsAt(Traceback, Traceback, 0);
  }
}
