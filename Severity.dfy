/** The severity of a provider status string, as `getStatusColor` in
    src/main/cloudformation.js chooses its colour: a classification by
    substrings, checked in order. */
module Severity {
  import opened Operations

  datatype Severity = Failure | InProgress | Success | Neutral

  /** `sub` occurs in `s` starting at position `i`. */
  predicate OccursAt(s: string, sub: string, i: int)
  {
    0 <= i <= |s| - |sub| && s[i..i + |sub|] == sub
  }

  /** JavaScript's `s.includes(sub)`: `sub` occurs in `s` at some position. */
  function Includes(s: string, sub: string): (b: bool)
    ensures b <==> exists i :: OccursAt(s, sub, i)
    decreases |s|
  {
    if |s| < |sub| then false
    else if s[..|sub|] == sub then assert OccursAt(s, sub, 0); true
    else
      var rest := Includes(s[1..], sub);
      assert rest ==> exists i :: OccursAt(s, sub, i) by {
        if rest {
          var i :| OccursAt(s[1..], sub, i);
          assert s[1..][i..i + |sub|] == s[i + 1..i + 1 + |sub|];
          assert OccursAt(s, sub, i + 1);
        }
      }
      assert (exists i :: OccursAt(s, sub, i)) ==> rest by {
        if exists i :: OccursAt(s, sub, i) {
          var i :| OccursAt(s, sub, i);
          assert i != 0;
          assert s[1..][i - 1..i - 1 + |sub|] == s[i..i + |sub|];
          assert OccursAt(s[1..], sub, i - 1);
        }
      }
      rest
  }

  /** A string cannot include a substring one of whose characters it lacks. */
  lemma MissingCharacter(s: string, sub: string, c: char)
    requires c in sub && c !in s
    ensures !Includes(s, sub)
  {
  }

  /** `getStatusColor`'s branches, redundant tests included. The
      classification is total and ordered: any rollback or failure wins,
      then a running operation, then a completion other than a deletion;
      everything else is neutral. The repeated tests of the later branches
      change nothing. */
  function StatusSeverity(status: string): (sev: Severity)
    ensures sev == Failure <==> Includes(status, "ROLLBACK") || Includes(status, "FAILED")
    ensures sev == InProgress <==>
      !Includes(status, "ROLLBACK") && !Includes(status, "FAILED") && Includes(status, "IN_PROGRESS")
    ensures sev == Success <==>
      !Includes(status, "ROLLBACK") && !Includes(status, "FAILED") && !Includes(status, "IN_PROGRESS") &&
      Includes(status, "COMPLETE") && !Includes(status, "DELETE")
    ensures sev == Neutral <==>
      !Includes(status, "ROLLBACK") && !Includes(status, "FAILED") && !Includes(status, "IN_PROGRESS") &&
      !(Includes(status, "COMPLETE") && !Includes(status, "DELETE"))
  {
    if Includes(status, "ROLLBACK") || Includes(status, "FAILED") then Failure
    else if Includes(status, "IN_PROGRESS") && !Includes(status, "ROLLBACK") then InProgress
    else if Includes(status, "COMPLETE") && !Includes(status, "ROLLBACK") && !Includes(status, "DELETE") then Success
    else Neutral
  }

  /** A rollback that is still running counts as a failure, not as progress. */
  lemma RollbackInProgressIsFailure()
    ensures StatusSeverity("UPDATE_ROLLBACK_IN_PROGRESS") == Failure
  {
    assert OccursAt("UPDATE_ROLLBACK_IN_PROGRESS", "ROLLBACK", 7);
  }

  /** A deletion status without the letters R, F and I is neutral. */
  lemma NeutralDeletion(status: string)
    requires 'R' !in status && 'F' !in status && 'I' !in status
    requires Includes(status, "DELETE")
    ensures StatusSeverity(status) == Neutral
  {
    MissingCharacter(status, "ROLLBACK", 'R');
    MissingCharacter(status, "FAILED", 'F');
    MissingCharacter(status, "IN_PROGRESS", 'I');
  }

  /** A completed deletion is neither a failure nor a success. */
  lemma DeleteCompleteIsNeutral()
    ensures StatusSeverity("DELETE_COMPLETE") == Neutral
  {
    assert OccursAt("DELETE_COMPLETE", "DELETE", 0);
    NeutralDeletion("DELETE_COMPLETE");
  }

  lemma NoInProgressWithoutI(status: string)
    requires 'I' !in status
    ensures StatusSeverity(status) != InProgress
  {
    MissingCharacter(status, "IN_PROGRESS", 'I');
  }

  lemma CreateFailedIsFailure() ensures StatusSeverity("CREATE_FAILED") == Failure {
    assert OccursAt("CREATE_FAILED", "FAILED", 7);
  }

  lemma DeleteFailedIsFailure() ensures StatusSeverity("DELETE_FAILED") == Failure {
    assert OccursAt("DELETE_FAILED", "FAILED", 7);
  }

  lemma RollbackCompleteIsFailure() ensures StatusSeverity("ROLLBACK_COMPLETE") == Failure {
    assert OccursAt("ROLLBACK_COMPLETE", "ROLLBACK", 0);
  }

  lemma RollbackFailedIsFailure() ensures StatusSeverity("ROLLBACK_FAILED") == Failure {
    assert OccursAt("ROLLBACK_FAILED", "ROLLBACK", 0);
  }

  lemma UpdateRollbackCompleteIsFailure() ensures StatusSeverity("UPDATE_ROLLBACK_COMPLETE") == Failure {
    assert OccursAt("UPDATE_ROLLBACK_COMPLETE", "ROLLBACK", 7);
  }

  lemma UpdateRollbackFailedIsFailure() ensures StatusSeverity("UPDATE_ROLLBACK_FAILED") == Failure {
    assert OccursAt("UPDATE_ROLLBACK_FAILED", "ROLLBACK", 7);
  }

  /** No status that ends an operation is ever displayed as still running. */
  lemma TerminalNeverInProgress(kind: OperationKind)
    ensures forall s :: s in TerminalStatuses(kind) ==> StatusSeverity(s) != InProgress
  {
    forall s | s in TerminalStatuses(kind) ensures StatusSeverity(s) != InProgress {
      if s == "CREATE_COMPLETE" || s == "UPDATE_COMPLETE" || s == "DELETE_COMPLETE" {
        NoInProgressWithoutI(s);
      } else if s == "CREATE_FAILED" {
        CreateFailedIsFailure();
      } else if s == "DELETE_FAILED" {
        DeleteFailedIsFailure();
      } else if s == "ROLLBACK_COMPLETE" {
        RollbackCompleteIsFailure();
      } else if s == "ROLLBACK_FAILED" {
        RollbackFailedIsFailure();
      } else if s == "UPDATE_ROLLBACK_COMPLETE" {
        UpdateRollbackCompleteIsFailure();
      } else {
        assert s == "UPDATE_ROLLBACK_FAILED";
        UpdateRollbackFailedIsFailure();
      }
    }
  }
}
