/** The remediation executor (services/operator/internal/executor/executor.go). */
module StepExecutor {
  import opened Text
  import opened Types

  predicate Fails(failAction: string, step: RemediationStep) {
    (failAction != "" && step.action == failAction) || step.action !in ["restart", "scale", "rollback"]
  }

  /** The position of the first step that fails, or the length if none does. */
  function FirstFailure(failAction: string, steps: seq<RemediationStep>): (k: nat)
    ensures k <= |steps|
    ensures forall i :: 0 <= i < k ==> !Fails(failAction, steps[i])
    ensures k < |steps| ==> Fails(failAction, steps[k])
  {
    if steps == [] || Fails(failAction, steps[0]) then 0 else 1 + FirstFailure(failAction, steps[1..])
  }

  predicate HasUndo(rollbackSteps: seq<RemediationStep>, name: string) {
    exists i :: 0 <= i < |rollbackSteps| && rollbackSteps[i].name == "undo_" + name
  }

  /** The undo entries of the steps that have one, in execution order. */
  function UndosOf(steps: seq<RemediationStep>, rollbackSteps: seq<RemediationStep>): seq<string> {
    if steps == [] then []
    else
      var last := steps[|steps| - 1].name;
      UndosOf(steps[..|steps| - 1], rollbackSteps) + if HasUndo(rollbackSteps, last) then ["undo_" + last] else []
  }

  function Reverse(s: seq<string>): seq<string> {
    if s == [] then [] else [s[|s| - 1]] + Reverse(s[..|s| - 1])
  }

  class Executor {
    var dryRun: bool
    var failAction: string
    var rollbackLog: seq<string>
    ghost var attempted: seq<RemediationStep>

    constructor (dryRun: bool)
      ensures this.dryRun == dryRun && failAction == "" && rollbackLog == [] && attempted == []
    {
      this.dryRun, failAction, rollbackLog, attempted := dryRun, "", [], [];
    }

    method Execute(step: RemediationStep) returns (ok: bool)
      modifies this`attempted
      ensures ok <==> (step.action == "restart" || step.action == "scale" || step.action == "rollback")
                       && (failAction == "" || step.action != failAction)
      ensures ok == !Fails(failAction, step)
      ensures attempted == old(attempted) + [step]
    {
      attempted := attempted + [step];
      if failAction != "" && step.action == failAction {
        return false;
      }
      match step.action {
        case "restart" =>
        case "scale" =>
        case "rollback" =>
        case _ => return false;
      }
      return true;
    }

    /** On failure returns the name of the failed step. */
    method ExecuteWithRollback(steps: seq<RemediationStep>, rollbackSteps: seq<RemediationStep>)
      returns (failed: Option<string>)
      modifies this`attempted, this`rollbackLog
      ensures var k := FirstFailure(failAction, steps);
              if k == |steps|
              then failed == None && rollbackLog == old(rollbackLog) && attempted == old(attempted) + steps
              else && failed == Some(steps[k].name)
                   && attempted == old(attempted) + steps[..k + 1]
                   && rollbackLog == old(rollbackLog) + Reverse(UndosOf(steps[..k + 1], rollbackSteps))
    {
      hide Reverse, UndosOf, HasUndo, Fails;
      var executedSteps := [];
      for i := 0 to |steps|
        invariant executedSteps == steps[..i] && attempted == old(attempted) + steps[..i]
        invariant rollbackLog == old(rollbackLog)
        invariant forall j :: 0 <= j < i ==> !Fails(failAction, steps[j])
      {
        executedSteps := executedSteps + [steps[i]];
        assert executedSteps == steps[..i + 1];
        var ok := Execute(steps[i]);
        if !ok {
          assert FirstFailure(failAction, steps) == i;
          Rollback(executedSteps, rollbackSteps);
          return Some(steps[i].name);
        }
      }
      assert steps[..|steps|] == steps;
      return None;
    }

    method Rollback(executedSteps: seq<RemediationStep>, rollbackSteps: seq<RemediationStep>)
      modifies this`rollbackLog
      ensures rollbackLog == old(rollbackLog) + Reverse(UndosOf(executedSteps, rollbackSteps))
    {
      hide Reverse, UndosOf, HasUndo;
      var i := |executedSteps| - 1;
      assert executedSteps[..i + 1] == executedSteps;
      NothingUndone(executedSteps, rollbackSteps);
      ghost var target := rollbackLog + Reverse(UndosOf(executedSteps, rollbackSteps));
      while i >= 0
        invariant -1 <= i < |executedSteps|
        invariant rollbackLog + Reverse(UndosOf(executedSteps[..i + 1], rollbackSteps)) == target
      {
        var step := executedSteps[i];
        ghost var before := rollbackLog;
        var j := 0;
        while j < |rollbackSteps|
          invariant 0 <= j <= |rollbackSteps| && rollbackLog == before
          invariant forall k :: 0 <= k < j ==> rollbackSteps[k].name != "undo_" + step.name
        {
          if rollbackSteps[j].name == "undo_" + step.name {
            rollbackLog := rollbackLog + [rollbackSteps[j].name];
            break;
          }
          j := j + 1;
        }
        UndoFound(rollbackSteps, step.name);
        UndoneOne(before, executedSteps, i, rollbackSteps);
        i := i - 1;
      }
    }
  }

  lemma NothingUndone(steps: seq<RemediationStep>, rollbackSteps: seq<RemediationStep>)
    ensures Reverse(UndosOf(steps[..0], rollbackSteps)) == []
  {}

  lemma UndoFound(rollbackSteps: seq<RemediationStep>, name: string)
    ensures HasUndo(rollbackSteps, name) <==> exists k | 0 <= k < |rollbackSteps|
        :: rollbackSteps[k].name == "undo_" + name
  {}

  lemma ReverseLast(steps: seq<RemediationStep>, i: nat, rollbackSteps: seq<RemediationStep>)
    requires i < |steps|
    ensures Reverse(UndosOf(steps[..i + 1], rollbackSteps))
         == (if HasUndo(rollbackSteps, steps[i].name) then ["undo_" + steps[i].name] else [])
            + Reverse(UndosOf(steps[..i], rollbackSteps))
  {
    var s1 := steps[..i + 1];
    assert s1[|s1| - 1] == steps[i] && s1[..|s1| - 1] == steps[..i];
    var u := UndosOf(steps[..i], rollbackSteps);
    var last := "undo_" + steps[i].name;
    assert (u + [last])[..|u|] == u && u + [] == u;
  }

  lemma UndoneOne(log: seq<string>, steps: seq<RemediationStep>, i: nat, rollbackSteps: seq<RemediationStep>)
    requires i < |steps|
    ensures var last := if HasUndo(rollbackSteps, steps[i].name) then ["undo_" + steps[i].name] else [];
      log + Reverse(UndosOf(steps[..i + 1], rollbackSteps)) == (log + last)
          + Reverse(UndosOf(steps[..i], rollbackSteps))
  {
    ReverseLast(steps, i, rollbackSteps);
  }

  /** The undo entries come in execution order. */
  lemma {:induction false} UndosConcat(a: seq<RemediationStep>, b: seq<RemediationStep>,
                                       rollbackSteps: seq<RemediationStep>)
    ensures UndosOf(a + b, rollbackSteps) == UndosOf(a, rollbackSteps) + UndosOf(b, rollbackSteps)
    decreases |b|
  {
    hide HasUndo;
    if b == [] {
      assert a + b == a;
    } else {
      var n := |b| - 1;
      assert (a + b)[..|a| + n] == a + b[..n] && (a + b)[|a| + n] == b[n];
      UndosConcat(a, b[..n], rollbackSteps);
    }
  }

  /** A step is undone by the entry named after it, if there is one. */
  lemma UndoOfStep(step: RemediationStep, rollbackSteps: seq<RemediationStep>)
    ensures UndosOf([step], rollbackSteps)
         == if exists i | 0 <= i < |rollbackSteps| :: rollbackSteps[i].name == "undo_" + step.name
            then ["undo_" + step.name] else []
  {
    UndoFound(rollbackSteps, step.name);
    hide HasUndo;
    assert [step][..0] == [] && UndosOf([], rollbackSteps) == [];
  }

  /** Reversal puts the last undone step first and loses none. */
  lemma {:induction false} ReverseAt(s: seq<string>)
    ensures |Reverse(s)| == |s| && forall i :: 0 <= i < |s| ==> Reverse(s)[i] == s[|s| - 1 - i]
  {
    if s == [] {
    } else {
      ReverseAt(s[..|s| - 1]);
    }
  }
}
