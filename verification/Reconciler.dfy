/** The reconciler with policy validation (services/operator/internal/controller/reconciler.go). */
module Reconciler {
  import opened Text
  import opened Types
  import opened IncidentStore
  import opened PolicyEngine

  /** Whether an execution succeeds, given everything executed before: any executor at all. */
  type Oracle = (seq<RemediationStep>, RemediationStep, Incident) -> bool

  /** Stands for an implementation of the Executor interface; it records its calls. */
  class RecordingExecutor {
    const oracle: Oracle
    var calls: seq<RemediationStep>

    constructor (oracle: Oracle)
      ensures this.oracle == oracle && calls == []
    {
      this.oracle := oracle;
      calls := [];
    }

    method Execute(step: RemediationStep, inc: Incident) returns (ok: bool)
      modifies this
      ensures calls == old(calls) + [step] && ok == oracle(old(calls), step, inc)
    {
      ok := oracle(calls, step, inc);
      calls := calls + [step];
    }
  }

  datatype Outcome =
    | IncidentNotFound
    | NoMatchingRunbook
    | ActionBlocked(action: string, reason: string)
    | AwaitingApproval
    | ExecutionFailed
    | Completed

  datatype World = World(store: StoreState, calls: seq<RemediationStep>)

  datatype Config = Config(runbooks: seq<Runbook>, policy: Policy, oracle: Oracle)

  predicate Matches(rb: Runbook, alertName: string, severity: string) {
    rb.alertName == alertName && severity in rb.severity
  }

  function MatchRunbook(runbooks: seq<Runbook>, alertName: string, severity: string): Option<Runbook> {
    if runbooks == [] then None
    else if Matches(runbooks[0], alertName, severity) then Some(runbooks[0])
    else MatchRunbook(runbooks[1..], alertName, severity)
  }

  function FirstOf(results: seq<ValidationResult>, c: Classification): (r: Option<ValidationResult>)
    ensures r.Some? ==> r.value in results && r.value.classification == c
    ensures r.None? <==> forall x :: x in results ==> x.classification != c
  {
    if results == [] then None
    else if results[0].classification == c then Some(results[0])
    else FirstOf(results[1..], c)
  }

  /** Runs the steps until one fails; returns the extended call log and whether all succeeded. */
  function ExecuteAll(calls: seq<RemediationStep>, steps: seq<RemediationStep>, inc: Incident, oracle: Oracle)
    : (seq<RemediationStep>, bool)
    decreases |steps|
  {
    if steps == [] then (calls, true)
    else if oracle(calls, steps[0], inc) then ExecuteAll(calls + [steps[0]], steps[1..], inc, oracle)
    else (calls + [steps[0]], false)
  }

  function SetPhase(s: StoreState, id: string, inc: Incident, phase: Phase): StoreState {
    Updated(s, id, inc.(phase := phase))
  }

  /** What one Reconcile call does to the store and asks of the executor. */
  function Reconciled(w: World, cfg: Config, id: string): (World, Outcome) {
    if id !in w.store.incidents then (w, IncidentNotFound)
    else
      var inc := w.store.incidents[id];
      match MatchRunbook(cfg.runbooks, inc.alertName, inc.severity)
      case None => (w.(store := SetPhase(w.store, id, inc, PhaseFailed)), NoMatchingRunbook)
      case Some(rb) =>
        var results := Plan(rb.remediation, cfg.policy, rb, inc.ns);
        var blocked := FirstOf(results, Blocked);
        if blocked.Some? then
          (w.(store := SetPhase(w.store, id, inc, PhaseFailed)),
           ActionBlocked(blocked.value.action, blocked.value.reason))
        else if FirstOf(results, RequiresApproval).Some? then
          (w.(store := SetPhase(w.store, id, inc, PhaseRequiresApproval)), AwaitingApproval)
        else
          var (calls, ok) := ExecuteAll(w.calls, rb.remediation, inc.(phase := PhaseExecuting), cfg.oracle);
          (World(SetPhase(w.store, id, inc, if ok then PhaseResolved else PhaseFailed), calls),
           if ok then Completed else ExecutionFailed)
  }

  class ReconcilerWithPolicy {
    const store: MemoryIncidentStore
    const runbooks: seq<Runbook>
    const executor: RecordingExecutor
    const policy: Policy

    constructor (store: MemoryIncidentStore, runbooks: seq<Runbook>, executor: RecordingExecutor, policy: Policy)
      ensures this.store == store && this.runbooks == runbooks && this.executor == executor && this.policy == policy
    {
      this.store, this.runbooks, this.executor, this.policy := store, runbooks, executor, policy;
    }

    function Now(): World
      reads store, executor
    {
      World(store.State(), executor.calls)
    }

    method Reconcile(id: string) returns (r: Outcome)
      modifies store, executor
      ensures (Now(), r) == Reconciled(old(Now()), Config(runbooks, policy, executor.oracle), id)
    {
      var got := store.Get(id);
      if got.None? {
        return IncidentNotFound;
      }
      var inc := got.value;
      var matched := MatchRunbook(runbooks, inc.alertName, inc.severity);
      if matched.None? {
        var _ := store.Update(id, inc.(phase := PhaseFailed));
        return NoMatchingRunbook;
      }
      var runbook := matched.value;
      var results := ValidatePlan(runbook.remediation, policy, runbook, inc.ns);
      for i := 0 to |results|
        invariant FirstOf(results[i..], Blocked) == FirstOf(results, Blocked)
        invariant Now() == old(Now())
      {
        assert results[i..][0] == results[i] && results[i..][1..] == results[i + 1..];
        if results[i].classification == Blocked {
          var _ := store.Update(id, inc.(phase := PhaseFailed));
          return ActionBlocked(results[i].action, results[i].reason);
        }
      }
      for i := 0 to |results|
        invariant FirstOf(results[i..], RequiresApproval) == FirstOf(results, RequiresApproval)
        invariant Now() == old(Now())
      {
        assert results[i..][0] == results[i] && results[i..][1..] == results[i + 1..];
        if results[i].classification == RequiresApproval {
          var _ := store.Update(id, inc.(phase := PhaseRequiresApproval));
          return AwaitingApproval;
        }
      }
      inc := inc.(phase := PhaseExecuting);
      var _ := store.Update(id, inc);
      UpdatedTwice(old(store.State()), id, inc, inc.(phase := PhaseFailed));
      UpdatedTwice(old(store.State()), id, inc, inc.(phase := PhaseResolved));
      for i := 0 to |runbook.remediation|
        invariant store.State() == Updated(old(store.State()), id, inc)
        invariant ExecuteAll(executor.calls, runbook.remediation[i..], inc, executor.oracle)
               == ExecuteAll(old(executor.calls), runbook.remediation, inc, executor.oracle)
      {
        var rest := runbook.remediation[i..];
        assert rest[0] == runbook.remediation[i] && rest[1..] == runbook.remediation[i + 1..];
        var ok := executor.Execute(runbook.remediation[i], inc);
        if !ok {
          var _ := store.Update(id, inc.(phase := PhaseFailed));
          return ExecutionFailed;
        }
      }
      var _ := store.Update(id, inc.(phase := PhaseResolved));
      return Completed;
    }
  }

  lemma UpdatedTwice(s: StoreState, id: string, a: Incident, b: Incident)
    ensures Updated(Updated(s, id, a), id, b) == Updated(s, id, b)
  {
    if id in s.incidents {
      assert s.incidents[id := a][id := b] == s.incidents[id := b];
    }
  }

  // ---------------------------------------------------------------- run safety

  /** The matching runbook is the first one in the list for this alert and severity. */
  lemma {:induction false} MatchIsFirst(runbooks: seq<Runbook>, alertName: string, severity: string) returns (k: nat)
    ensures k <= |runbooks| && forall j :: 0 <= j < k ==> !Matches(runbooks[j], alertName, severity)
    ensures MatchRunbook(runbooks, alertName, severity) == if k < |runbooks| then Some(runbooks[k]) else None
    ensures k < |runbooks| ==> Matches(runbooks[k], alertName, severity)
  {
    if runbooks == [] || Matches(runbooks[0], alertName, severity) {
      k := 0;
    } else {
      k := MatchIsFirst(runbooks[1..], alertName, severity);
      assert forall j :: 1 <= j < |runbooks| ==> runbooks[j] == runbooks[1..][j - 1];
      k := k + 1;
    }
  }

  predicate AllApproved(rb: Runbook, policy: Policy, ns: string) {
    forall i :: 0 <= i < |rb.remediation| ==> ClassOf(rb.remediation[i], policy, rb, ns) == Approved
  }

  lemma {:induction false} ExecuteAllIsPrefix(calls: seq<RemediationStep>, steps: seq<RemediationStep>,
                                              inc: Incident, oracle: Oracle)
    returns (k: nat)
    ensures var (calls', ok) := ExecuteAll(calls, steps, inc, oracle);
            && k <= |steps| && calls' == calls + steps[..k]
            && (forall i :: 0 <= i < k - 1 ==> oracle(calls + steps[..i], steps[i], inc))
            && (ok <==> k == |steps| && forall i :: 0 <= i < |steps| ==> oracle(calls + steps[..i], steps[i], inc))
            && (!ok ==> k > 0 && !oracle(calls + steps[..k - 1], steps[k - 1], inc))
    decreases |steps|
  {
    if steps == [] {
      k := 0;
      assert calls + steps[..0] == calls;
    } else {
      assert calls + steps[..0] == calls;
      if oracle(calls, steps[0], inc) {
        var calls1 := calls + [steps[0]];
        var k1 := ExecuteAllIsPrefix(calls1, steps[1..], inc, oracle);
        k := k1 + 1;
        assert forall i :: 0 <= i < |steps| ==> calls1 + steps[1..][..i] == calls + steps[..i + 1];
        assert calls1 + steps[1..][..k1] == calls + steps[..k];
        forall i | 0 <= i < k - 1 ensures oracle(calls + steps[..i], steps[i], inc) {
          if i > 0 { assert steps[1..][i - 1] == steps[i]; }
        }
        var (_, ok) := ExecuteAll(calls, steps, inc, oracle);
        if ok {
          forall i | 0 <= i < |steps| ensures oracle(calls + steps[..i], steps[i], inc) {
            if i > 0 { assert steps[1..][i - 1] == steps[i]; }
          }
        } else {
          assert steps[1..][k1 - 1] == steps[k - 1];
        }
      } else {
        k := 1;
        assert steps[..1] == [steps[0]];
      }
    }
  }

  lemma PlanApproved(rb: Runbook, policy: Policy, ns: string)
    ensures var results := Plan(rb.remediation, policy, rb, ns);
            AllApproved(rb, policy, ns) <==> FirstOf(results, Blocked).None? && FirstOf(results, RequiresApproval).None?
  {
    var results := Plan(rb.remediation, policy, rb, ns);
    if AllApproved(rb, policy, ns) {
      forall x | x in results ensures x.classification == Approved {
        var i :| 0 <= i < |results| && results[i] == x;
        assert ClassOf(rb.remediation[i], policy, rb, ns) == Approved;
      }
    } else {
      var i :| 0 <= i < |rb.remediation| && ClassOf(rb.remediation[i], policy, rb, ns) != Approved;
      assert results[i] in results;
    }
  }

  /** The executor is asked for nothing unless the whole plan of the first matching runbook is approved, and then
      for a prefix of that plan, in order; Resolved is stored exactly when the whole plan ran without error;
      nothing but this incident's phase changes in the store. */
  lemma RunSafety(w: World, cfg: Config, id: string)
    ensures var (w', r) := Reconciled(w, cfg, id);
            && w.calls <= w'.calls
            && w'.store.nextID == w.store.nextID && w'.store.incidents.Keys == w.store.incidents.Keys
            && (forall other :: other in w.store.incidents && other != id ==>
                  w'.store.incidents[other] == w.store.incidents[other])
            && (id !in w.store.incidents ==> r == IncidentNotFound && w' == w)
            && (id in w.store.incidents ==>
                  var inc := w.store.incidents[id];
                  var m := MatchRunbook(cfg.runbooks, inc.alertName, inc.severity);
                  var phase := w'.store.incidents[id].phase;
                  var mayRun := m.Some? && AllApproved(m.value, cfg.policy, inc.ns);
                  && w'.store.incidents[id] == inc.(phase := phase)
                  && (!mayRun ==> w'.calls == w.calls && phase in {PhaseFailed, PhaseRequiresApproval})
                  && (mayRun ==> w'.calls[|w.calls|..] <= m.value.remediation && phase in {PhaseFailed, PhaseResolved})
                  && (phase == PhaseResolved <==> r == Completed)
                  && (r == Completed <==>
                        mayRun && forall i :: 0 <= i < |m.value.remediation| ==>
                                    cfg.oracle(w.calls + m.value.remediation[..i], m.value.remediation[i],
                                                inc.(phase := PhaseExecuting)))
                  && (r == Completed ==> w'.calls == w.calls + m.value.remediation))
  {
    hide Plan, MatchRunbook, FirstOf, ExecuteAll;
    if id in w.store.incidents {
      var inc := w.store.incidents[id];
      var m := MatchRunbook(cfg.runbooks, inc.alertName, inc.severity);
      if m.Some? {
        PlanApproved(m.value, cfg.policy, inc.ns);
        var steps := m.value.remediation;
        var k := ExecuteAllIsPrefix(w.calls, steps, inc.(phase := PhaseExecuting), cfg.oracle);
        assert (w.calls + steps[..k])[|w.calls|..] == steps[..k];
        assert k == |steps| ==> steps[..k] == steps;
      }
    }
  }

  /** Which runbook is used, by its position: the first for this alert and severity, or none. */
  predicate FirstFor(runbooks: seq<Runbook>, inc: Incident, k: nat) {
    && k <= |runbooks|
    && (forall j | 0 <= j < k :: !(runbooks[j].alertName == inc.alertName && inc.severity in runbooks[j].severity))
    && (k < |runbooks| ==> runbooks[k].alertName == inc.alertName && inc.severity in runbooks[k].severity)
  }

  lemma {:induction false} FirstForIsMatch(runbooks: seq<Runbook>, inc: Incident, k: nat)
    requires FirstFor(runbooks, inc, k)
    ensures MatchRunbook(runbooks, inc.alertName, inc.severity) == if k < |runbooks| then Some(runbooks[k]) else None
  {
    if k == 0 {
    } else {
      FirstForIsMatch(runbooks[1..], inc, k - 1);
    }
  }

  lemma {:induction false} FirstOfIs(results: seq<ValidationResult>, c: Classification, i: nat)
    requires i < |results| && results[i].classification == c
    requires forall j | 0 <= j < i :: results[j].classification != c
    ensures FirstOf(results, c) == Some(results[i])
  {
    if i == 0 {
    } else {
      FirstOfIs(results[1..], c, i - 1);
    }
  }

  lemma NoneOf(results: seq<ValidationResult>, c: Classification)
    requires forall j | 0 <= j < |results| :: results[j].classification != c
    ensures FirstOf(results, c) == None
  {
    forall x | x in results ensures x.classification != c {
      var j :| 0 <= j < |results| && results[j] == x;
    }
  }

  /** The runbook at k is used for the incident. */
  predicate Uses(w: World, cfg: Config, id: string, k: nat) {
    id in w.store.incidents && FirstFor(cfg.runbooks, w.store.incidents[id], k)
  }

  /** Only the incident's phase is changed. */
  function WithPhase(w: World, id: string, phase: Phase): World
    requires id in w.store.incidents
  {
    World(StoreState(w.store.incidents[id := w.store.incidents[id].(phase := phase)], w.store.nextID), w.calls)
  }

  /** The class of a step of the runbook at k. */
  function StepClass(w: World, cfg: Config, id: string, k: nat, i: nat): Classification
    requires id in w.store.incidents && k < |cfg.runbooks| && i < |cfg.runbooks[k].remediation|
  {
    ClassOf(cfg.runbooks[k].remediation[i], cfg.policy, cfg.runbooks[k], w.store.incidents[id].ns)
  }

  lemma NoRunbookFails(w: World, cfg: Config, id: string)
    requires Uses(w, cfg, id, |cfg.runbooks|)
    ensures Reconciled(w, cfg, id) == (WithPhase(w, id, PhaseFailed), NoMatchingRunbook)
  {
    FirstForIsMatch(cfg.runbooks, w.store.incidents[id], |cfg.runbooks|);
  }

  /** A blocked step fails the incident; the first one is named, with the reason of its first failing check. */
  lemma BlockedFails(w: World, cfg: Config, id: string, k: nat, i: nat)
    requires k < |cfg.runbooks| && Uses(w, cfg, id, k) && i < |cfg.runbooks[k].remediation|
    requires StepClass(w, cfg, id, k, i) == Blocked && forall j | 0 <= j < i :: StepClass(w, cfg, id, k, j) != Blocked
    ensures var rb := cfg.runbooks[k];
      var reason := ValidateSingleAction(rb.remediation[i], cfg.policy, rb, w.store.incidents[id].ns).reason;
      Reconciled(w, cfg, id) == (WithPhase(w, id, PhaseFailed), ActionBlocked(rb.remediation[i].name, reason))
  {
    hide FirstOf, MatchRunbook, ExecuteAll, FirstFor;
    var inc, rb := w.store.incidents[id], cfg.runbooks[k];
    FirstForIsMatch(cfg.runbooks, inc, k);
    var results := Plan(rb.remediation, cfg.policy, rb, inc.ns);
    forall j | 0 <= j < i ensures results[j].classification != Blocked {
      assert StepClass(w, cfg, id, k, j) != Blocked;
    }
    FirstOfIs(results, Blocked, i);
    ResultExact(rb.remediation[i], cfg.policy, rb, inc.ns);
  }

  /** Without a blocked step, one that needs approval leaves the incident waiting for it. */
  lemma ApprovalAwaited(w: World, cfg: Config, id: string, k: nat, i: nat)
    requires k < |cfg.runbooks| && Uses(w, cfg, id, k) && i < |cfg.runbooks[k].remediation|
    requires StepClass(w, cfg, id, k, i) == RequiresApproval
    requires forall j | 0 <= j < |cfg.runbooks[k].remediation| :: StepClass(w, cfg, id, k, j) != Blocked
    ensures Reconciled(w, cfg, id) == (WithPhase(w, id, PhaseRequiresApproval), AwaitingApproval)
  {
    hide FirstOf, MatchRunbook, ExecuteAll, FirstFor;
    var inc, rb := w.store.incidents[id], cfg.runbooks[k];
    FirstForIsMatch(cfg.runbooks, inc, k);
    var results := Plan(rb.remediation, cfg.policy, rb, inc.ns);
    forall j | 0 <= j < |results| ensures results[j].classification != Blocked {
      assert StepClass(w, cfg, id, k, j) != Blocked;
    }
    NoneOf(results, Blocked);
    assert results[i].classification == RequiresApproval && results[i] in results;
  }

  /** With every step approved the plan is run, and the outcome is that of the run. */
  lemma ApprovedRuns(w: World, cfg: Config, id: string, k: nat)
    requires k < |cfg.runbooks| && Uses(w, cfg, id, k)
    requires forall j | 0 <= j < |cfg.runbooks[k].remediation| :: StepClass(w, cfg, id, k, j) == Approved
    ensures var (w', r) := Reconciled(w, cfg, id);
      && (r == Completed || r == ExecutionFailed)
      && w'.store == WithPhase(w, id, if r == Completed then PhaseResolved else PhaseFailed).store
  {
    hide FirstOf, MatchRunbook, ExecuteAll, FirstFor;
    var inc, rb := w.store.incidents[id], cfg.runbooks[k];
    FirstForIsMatch(cfg.runbooks, inc, k);
    forall i | 0 <= i < |rb.remediation| ensures ClassOf(rb.remediation[i], cfg.policy, rb, inc.ns) == Approved {
      assert StepClass(w, cfg, id, k, i) == Approved;
    }
    PlanApproved(rb, cfg.policy, inc.ns);
  }

  /** Exactly when a human is asked: no step is blocked and some step needs approval. */
  lemma AwaitingExactly(w: World, cfg: Config, id: string, k: nat)
    requires k < |cfg.runbooks| && Uses(w, cfg, id, k)
    ensures var (w', r) := Reconciled(w, cfg, id);
      && id in w'.store.incidents
      && (r == AwaitingApproval <==> w'.store.incidents[id].phase == PhaseRequiresApproval)
      && (r == AwaitingApproval
          <==> && (forall j | 0 <= j < |cfg.runbooks[k].remediation| :: StepClass(w, cfg, id, k, j) != Blocked)
               && (exists j | 0 <= j < |cfg.runbooks[k].remediation| ::
                     StepClass(w, cfg, id, k, j) == RequiresApproval))
  {
    hide Reconciled, FirstFor, StepClass;
    var n := |cfg.runbooks[k].remediation|;
    if exists j | 0 <= j < n :: StepClass(w, cfg, id, k, j) == Blocked {
      var i := FirstBlocked(w, cfg, id, k, n);
      BlockedFails(w, cfg, id, k, i);
    } else if i :| 0 <= i < n && StepClass(w, cfg, id, k, i) == RequiresApproval {
      ApprovalAwaited(w, cfg, id, k, i);
    } else {
      ApprovedRuns(w, cfg, id, k);
    }
  }

  lemma {:induction false} FirstBlocked(w: World, cfg: Config, id: string, k: nat, n: nat) returns (i: nat)
    requires k < |cfg.runbooks| && id in w.store.incidents && n <= |cfg.runbooks[k].remediation|
    requires exists j | 0 <= j < n :: StepClass(w, cfg, id, k, j) == Blocked
    ensures i < n && StepClass(w, cfg, id, k, i) == Blocked
    ensures forall j | 0 <= j < i :: StepClass(w, cfg, id, k, j) != Blocked
  {
    hide StepClass;
    if exists j | 0 <= j < n - 1 :: StepClass(w, cfg, id, k, j) == Blocked {
      i := FirstBlocked(w, cfg, id, k, n - 1);
    } else {
      i := n - 1;
    }
  }

  /** A stricter policy executes the same steps or none, and when it executes at all the whole outcome is the same. */
  lemma StricterRunsSameOrNothing(w: World, runbooks: seq<Runbook>, q: Policy, p: Policy, oracle: Oracle, id: string)
    requires AtLeastAsStrict(q, p)
    ensures var (wq, rq) := Reconciled(w, Config(runbooks, q, oracle), id);
            var (wp, rp) := Reconciled(w, Config(runbooks, p, oracle), id);
            wq.calls == w.calls || (wq == wp && rq == rp)
  {
    if id in w.store.incidents {
      var inc := w.store.incidents[id];
      var m := MatchRunbook(runbooks, inc.alertName, inc.severity);
      if m.Some? {
        var rb := m.value;
        PlanApproved(rb, q, inc.ns);
        PlanApproved(rb, p, inc.ns);
        if AllApproved(rb, q, inc.ns) {
          forall i | 0 <= i < |rb.remediation| ensures ClassOf(rb.remediation[i], p, rb, inc.ns) == Approved {
            StrictPolicyNeverLower(q, p, rb.remediation[i], rb, inc.ns);
          }
        }
      }
    }
  }
}
