/** The audit store (services/backend/internal/audit/store.go) and the handler that writes a decision and its
    record (services/backend/internal/handler/full_handler.go). */
module AuditLog {
  import opened Text
  import opened Types
  import opened IncidentStore

  datatype RecordType =
    | IncidentCreated | PlanProduced | ActionApproved | ActionRejected
    | ActionExecuted | ActionFailed | RollbackExecuted | ApprovalTimeout

  /** The timestamp 0 stands for the zero time. */
  datatype Record = Record(incidentId: string, kind: RecordType, timestamp: int, actor: string,
                           details: map<string, string>)

  /** The records an incident's query is about, in append order. */
  function Select(records: seq<Record>, id: string, kind: Option<RecordType>): seq<Record> {
    if records == [] then []
    else
      var last := records[|records| - 1];
      Select(records[..|records| - 1], id, kind)
      + if last.incidentId == id && (kind == None || kind == Some(last.kind)) then [last] else []
  }

  predicate TimeOrdered(rs: seq<Record>) {
    forall i, j :: 0 <= i < j < |rs| ==> rs[i].timestamp <= rs[j].timestamp
  }

  predicate StrictlyIncreasing(rs: seq<Record>) {
    forall i, j :: 0 <= i < j < |rs| ==> rs[i].timestamp < rs[j].timestamp
  }

  function InsertByTime(out: seq<Record>, r: Record): seq<Record> {
    if out == [] || r.timestamp < out[0].timestamp then [r] + out else [out[0]] + InsertByTime(out[1..], r)
  }

  lemma {:induction false} InsertAdds(out: seq<Record>, r: Record)
    ensures multiset(InsertByTime(out, r)) == multiset(out) + multiset{r}
  {
    if out != [] && r.timestamp >= out[0].timestamp {
      InsertAdds(out[1..], r);
      assert out == [out[0]] + out[1..];
    }
  }

  predicate NoneBefore(t: int, rs: seq<Record>) { forall i :: 0 <= i < |rs| ==> t <= rs[i].timestamp }

  lemma {:induction false} InsertBound(out: seq<Record>, r: Record, t: int)
    requires NoneBefore(t, out) && t <= r.timestamp
    ensures NoneBefore(t, InsertByTime(out, r))
  {
    if out != [] && r.timestamp >= out[0].timestamp {
      InsertBound(out[1..], r, t);
    }
  }

  lemma {:induction false} InsertKeepsOrder(out: seq<Record>, r: Record)
    requires TimeOrdered(out)
    ensures TimeOrdered(InsertByTime(out, r))
  {
    if out != [] && r.timestamp >= out[0].timestamp {
      InsertKeepsOrder(out[1..], r);
      InsertBound(out[1..], r, out[0].timestamp);
    }
  }

  /** Any sort by time: sort.Slice is not stable, so nothing is promised about records of the same time. */
  method SortByTime(rs: seq<Record>) returns (out: seq<Record>)
    ensures TimeOrdered(out) && multiset(out) == multiset(rs)
  {
    out := [];
    for i := 0 to |rs|
      invariant TimeOrdered(out) && multiset(out) == multiset(rs[..i])
    {
      InsertKeepsOrder(out, rs[i]);
      InsertAdds(out, rs[i]);
      assert rs[..i + 1] == rs[..i] + [rs[i]];
      out := InsertByTime(out, rs[i]);
    }
    assert rs[..|rs|] == rs;
  }

  class MemoryAuditStore {
    var records: seq<Record>

    constructor ()
      ensures records == []
    {
      records := [];
    }

    method Append(record: Record, now: int)
      modifies this
      ensures records == old(records) + [if record.timestamp == 0 then record.(timestamp := now) else record]
    {
      var r := record;
      if r.timestamp == 0 {
        r := r.(timestamp := now);
      }
      records := records + [r];
    }

    method GetByIncident(id: string) returns (result: seq<Record>)
      ensures TimeOrdered(result) && multiset(result) == multiset(Select(records, id, None))
      ensures StrictlyIncreasing(Select(records, id, None)) ==> result == Select(records, id, None)
    {
      var selected := [];
      for i := 0 to |records|
        invariant selected == Select(records[..i], id, None)
      {
        assert records[..i + 1][..i] == records[..i];
        if records[i].incidentId == id {
          selected := selected + [records[i]];
        }
      }
      assert records[..|records|] == records;
      result := SortByTime(selected);
      if StrictlyIncreasing(selected) {
        SortedIsUnique(selected, result);
      }
    }

    method GetByType(id: string, kind: RecordType) returns (result: seq<Record>)
      ensures TimeOrdered(result) && multiset(result) == multiset(Select(records, id, Some(kind)))
      ensures StrictlyIncreasing(Select(records, id, Some(kind))) ==> result == Select(records, id, Some(kind))
    {
      var selected := [];
      for i := 0 to |records|
        invariant selected == Select(records[..i], id, Some(kind))
      {
        assert records[..i + 1][..i] == records[..i];
        if records[i].incidentId == id && records[i].kind == kind {
          selected := selected + [records[i]];
        }
      }
      assert records[..|records|] == records;
      result := SortByTime(selected);
      if StrictlyIncreasing(selected) {
        SortedIsUnique(selected, result);
      }
    }
  }

  lemma SortedHead(rs: seq<Record>, out: seq<Record>)
    requires StrictlyIncreasing(rs) && TimeOrdered(out) && multiset(out) == multiset(rs) && rs != []
    ensures out != [] && out[0] == rs[0]
  {
    assert rs[0] in multiset(rs);
    assert rs[0] in multiset(out) && rs[0] in out;
    assert out[0] in multiset(out);
    assert out[0] in multiset(rs) && out[0] in rs;
    var i :| 0 <= i < |out| && out[i] == rs[0];
    var j :| 0 <= j < |rs| && rs[j] == out[0];
    assert out[0].timestamp <= out[i].timestamp;
  }

  lemma TailMultiset(s: seq<Record>)
    requires s != []
    ensures multiset(s[1..]) == multiset(s) - multiset{s[0]}
  {
    assert s == [s[0]] + s[1..];
  }

  /** Records with strictly increasing times have only one time-ordered arrangement. */
  lemma {:induction false} SortedIsUnique(rs: seq<Record>, out: seq<Record>)
    requires StrictlyIncreasing(rs) && TimeOrdered(out) && multiset(out) == multiset(rs)
    ensures out == rs
  {
    assert |multiset(out)| == |out| && |multiset(rs)| == |rs|;
    if rs == [] {
    } else {
      SortedHead(rs, out);
      TailMultiset(rs);
      TailMultiset(out);
      SortedIsUnique(rs[1..], out[1..]);
      assert rs == [rs[0]] + rs[1..] && out == [out[0]] + out[1..];
    }
  }

  // ---------------------------------------------------------------- decisions and their records

  datatype Call =
    | ApproveCall(id: string, who: string, now: int)
    | RejectCall(id: string, who: string, reason: string, now: int)

  datatype State = State(store: StoreState, records: seq<Record>)

  function PhaseOf(c: Call): Phase { if c.ApproveCall? then PhaseExecuting else PhaseRejected }

  function RecordOf(c: Call): Record {
    match c
    case ApproveCall(id, who, now) => Record(id, ActionApproved, now, who, map[])
    case RejectCall(id, who, reason, now) => Record(id, ActionRejected, now, who, map["reason" := reason])
  }

  /** A call on a stored incident sets its phase and appends one record; any other call does nothing. */
  function Decide(s: State, c: Call): State {
    if c.id in s.store.incidents
    then State(Updated(s.store, c.id, s.store.incidents[c.id].(phase := PhaseOf(c))), s.records + [RecordOf(c)])
    else s
  }

  function DecideAll(s: State, calls: seq<Call>): State {
    if calls == [] then s else Decide(DecideAll(s, calls[..|calls| - 1]), calls[|calls| - 1])
  }

  class FullHandler {
    const store: MemoryIncidentStore
    const auditStore: MemoryAuditStore

    constructor (store: MemoryIncidentStore, auditStore: MemoryAuditStore)
      ensures this.store == store && this.auditStore == auditStore
    {
      this.store, this.auditStore := store, auditStore;
    }

    function Now(): State
      reads store, auditStore
    {
      State(store.State(), auditStore.records)
    }

    method Approve(id: string, approver: string, now: int) returns (ok: bool)
      modifies store, auditStore
      ensures ok == (id in old(store.incidents)) && Now() == Decide(old(Now()), ApproveCall(id, approver, now))
      ensures ok ==>
        && store.incidents == old(store.incidents)[id := old(store.incidents)[id].(phase := PhaseExecuting)]
        && auditStore.records == old(auditStore.records) + [Record(id, ActionApproved, now, approver, map[])]
    {
      var got := store.Get(id);
      if got.None? {
        return false;
      }
      var _ := store.Update(id, got.value.(phase := PhaseExecuting));
      auditStore.Append(Record(id, ActionApproved, now, approver, map[]), now);
      return true;
    }

    method Reject(id: string, rejector: string, reason: string, now: int) returns (ok: bool)
      modifies store, auditStore
      ensures ok == (id in old(store.incidents)) && Now() == Decide(old(Now()), RejectCall(id, rejector, reason, now))
      ensures ok ==>
        && store.incidents == old(store.incidents)[id := old(store.incidents)[id].(phase := PhaseRejected)]
        && auditStore.records
           == old(auditStore.records) + [Record(id, ActionRejected, now, rejector, map["reason" := reason])]
    {
      var got := store.Get(id);
      if got.None? {
        return false;
      }
      var _ := store.Update(id, got.value.(phase := PhaseRejected));
      auditStore.Append(Record(id, ActionRejected, now, rejector, map["reason" := reason]), now);
      return true;
    }
  }

  /** The phase that a trail of records leads to. */
  function Replay(phase: Phase, trail: seq<Record>): Phase {
    if trail == [] then phase
    else match trail[|trail| - 1].kind
      case ActionApproved => PhaseExecuting
      case ActionRejected => PhaseRejected
      case _ => Replay(phase, trail[..|trail| - 1])
  }

  lemma SelectLast(a: seq<Record>, r: Record, id: string, kind: Option<RecordType>)
    ensures Select(a + [r], id, kind)
         == Select(a, id, kind) + if r.incidentId == id && (kind == None || kind == Some(r.kind)) then [r] else []
  {
    assert (a + [r])[..|a|] == a;
  }

  lemma SelectNothing(id: string, kind: Option<RecordType>)
    ensures Select([], id, kind) == []
  {}

  /** A query takes a trail apart anywhere. */
  lemma {:induction false} SelectConcat(a: seq<Record>, b: seq<Record>, id: string, kind: Option<RecordType>)
    ensures Select(a + b, id, kind) == Select(a, id, kind) + Select(b, id, kind)
    decreases |b|
  {
    hide Select;
    if b == [] {
      SelectNothing(id, kind);
      assert a + b == a;
    } else {
      var before, r := b[..|b| - 1], b[|b| - 1];
      assert b == before + [r];
      SelectConcat(a, before, id, kind);
      SelectStep(a, before, r, id, kind);
    }
  }

  lemma SelectStep(a: seq<Record>, b: seq<Record>, r: Record, id: string, kind: Option<RecordType>)
    requires Select(a + b, id, kind) == Select(a, id, kind) + Select(b, id, kind)
    ensures Select(a + (b + [r]), id, kind) == Select(a, id, kind) + Select(b + [r], id, kind)
  {
    hide Select;
    assert a + (b + [r]) == (a + b) + [r];
    SelectLast(a + b, r, id, kind);
    SelectLast(b, r, id, kind);
  }

  lemma SelectOne(r: Record, id: string, kind: Option<RecordType>)
    ensures Select([r], id, kind)
         == if r.incidentId == id && (kind.Some? ==> r.kind == kind.value) then [r] else []
  {
    assert [r][..0] == [] && Select([], id, kind) == [];
  }

  /** What a query selects, record by record: exactly when incident and type, if one is asked for, are the record's. */
  lemma SelectMeans(a: seq<Record>, r: Record, b: seq<Record>, id: string, kind: Option<RecordType>)
    ensures Select(a + [r] + b, id, kind)
         == Select(a, id, kind)
            + (if r.incidentId == id && (kind.Some? ==> r.kind == kind.value) then [r] else [])
            + Select(b, id, kind)
  {
    hide Select;
    SelectConcat(a + [r], b, id, kind);
    SelectConcat(a, [r], id, kind);
    SelectOne(r, id, kind);
  }

  lemma SelectAppend(records: seq<Record>, r: Record, id: string)
    ensures Select(records + [r], id, None) == Select(records, id, None) + if r.incidentId == id then [r] else []
  {
    assert (records + [r])[..|records|] == records;
  }

  lemma ReplayLast(phase: Phase, trail: seq<Record>, r: Record)
    ensures trail + [] == trail
    ensures r.kind == ActionApproved ==> Replay(phase, trail + [r]) == PhaseExecuting
    ensures r.kind == ActionRejected ==> Replay(phase, trail + [r]) == PhaseRejected
  {
    assert (trail + [r])[|trail|] == r;
  }

  predicate Replays(s: State, id: string, first: Incident) {
    && id in s.store.incidents
    && s.store.incidents[id] == first.(phase := Replay(first.phase, Select(s.records, id, None)))
  }

  lemma DecideReplays(s: State, c: Call, id: string, first: Incident)
    requires Replays(s, id, first)
    ensures Replays(Decide(s, c), id, first) && s.records <= Decide(s, c).records
  {
    if c.id in s.store.incidents {
      SelectAppend(s.records, RecordOf(c), id);
      ReplayLast(first.phase, Select(s.records, id, None), RecordOf(c));
    }
  }

  /** The log replays to the store: if an incident is its first version with the phase that its records replay to,
      it still is after any sequence of calls; and the log only grows. */
  lemma {:induction false} LogReplaysToStore(s: State, calls: seq<Call>, id: string, first: Incident)
    requires Replays(s, id, first)
    ensures Replays(DecideAll(s, calls), id, first) && s.records <= DecideAll(s, calls).records
    decreases |calls|
  {
    if calls == [] {
    } else {
      var before, c := calls[..|calls| - 1], calls[|calls| - 1];
      LogReplaysToStore(s, before, id, first);
      DecideReplays(DecideAll(s, before), c, id, first);
    }
  }

  // ---------------------------------------------------------------- replaying a query

  predicate Decides(r: Record) { r.kind.ActionApproved? || r.kind.ActionRejected? }

  function PhaseIn(r: Record): Phase { if r.kind.ActionApproved? then PhaseExecuting else PhaseRejected }

  /** The record at i is the last decision of the trail. */
  predicate LastDecision(trail: seq<Record>, i: nat) {
    i < |trail| && Decides(trail[i]) && forall j | i < j < |trail| :: !Decides(trail[j])
  }

  lemma {:induction false} ReplayIsLastDecision(phase: Phase, trail: seq<Record>, i: nat)
    requires LastDecision(trail, i)
    ensures Replay(phase, trail) == PhaseIn(trail[i])
  {
    if i < |trail| - 1 {
      var before := trail[..|trail| - 1];
      assert before[i] == trail[i];
      ReplayIsLastDecision(phase, before, i);
    }
  }

  lemma {:induction false} ReplayWithoutDecision(phase: Phase, trail: seq<Record>)
    requires forall j | 0 <= j < |trail| :: !Decides(trail[j])
    ensures Replay(phase, trail) == phase
  {
    if trail == [] {
    } else {
      ReplayWithoutDecision(phase, trail[..|trail| - 1]);
    }
  }

  lemma {:induction false} FindLastDecision(trail: seq<Record>) returns (i: nat)
    ensures if i < |trail| then LastDecision(trail, i) else forall j | 0 <= j < |trail| :: !Decides(trail[j])
  {
    if trail == [] || Decides(trail[|trail| - 1]) {
      i := if trail == [] then 0 else |trail| - 1;
    } else {
      var before := trail[..|trail| - 1];
      i := FindLastDecision(before);
      if i >= |before| { i := |trail|; }
    }
  }

  /** The trail's last decision is strictly later than its other decisions. */
  predicate LastIsLatest(trail: seq<Record>) {
    forall i, j | 0 <= i < |trail| && LastDecision(trail, i) && 0 <= j < |trail| && j != i && Decides(trail[j]) ::
      trail[j].timestamp < trail[i].timestamp
  }

  lemma {:induction false} TwiceCounted(s: seq<Record>, i: nat, j: nat)
    requires i < j < |s| && s[i] == s[j]
    ensures multiset(s)[s[i]] >= 2
  {
    assert s == s[..j] + [s[j]] + s[j + 1..];
    assert s[i] in s[..j];
  }

  lemma {:induction false} OnceCounted(s: seq<Record>, i: nat)
    requires i < |s| && forall j | 0 <= j < |s| && j != i :: s[j] != s[i]
    ensures multiset(s)[s[i]] == 1
  {
    var a, b := s[..i], s[i + 1..];
    assert s == a + [s[i]] + b;
    assert forall j | 0 <= j < |b| :: b[j] == s[i + 1 + j];
    assert s[i] !in multiset(a) && s[i] !in multiset(b);
  }

  /** Any time-ordered arrangement of a trail replays as the trail does, when its last decision is the latest. */
  lemma {:induction false} ReplayByTime(phase: Phase, trail: seq<Record>, result: seq<Record>)
    requires LastIsLatest(trail) && TimeOrdered(result) && multiset(result) == multiset(trail)
    ensures Replay(phase, result) == Replay(phase, trail)
  {
    var i := FindLastDecision(trail);
    if i < |trail| {
      ReplayIsLastDecision(phase, trail, i);
      assert trail[i] in multiset(result);
      var m :| 0 <= m < |result| && result[m] == trail[i];
      OnceCounted(trail, i);
      forall n | m < n < |result| ensures !Decides(result[n]) {
        LaterIsNoDecision(trail, i, result, m, n);
      }
      ReplayIsLastDecision(phase, result, m);
    } else {
      ReplayWithoutDecision(phase, trail);
      forall n | 0 <= n < |result| ensures !Decides(result[n]) {
        assert result[n] in multiset(trail);
      }
      ReplayWithoutDecision(phase, result);
    }
  }

  lemma LaterIsNoDecision(trail: seq<Record>, i: nat, result: seq<Record>, m: nat, n: nat)
    requires LastIsLatest(trail) && LastDecision(trail, i) && multiset(trail)[trail[i]] == 1
    requires TimeOrdered(result) && multiset(result) == multiset(trail)
    requires m < n < |result| && result[m] == trail[i]
    ensures !Decides(result[n])
  {
    assert result[n] in multiset(trail);
    var j :| 0 <= j < |trail| && trail[j] == result[n];
    if result[n] == result[m] { TwiceCounted(result, m, n); }
  }

  /** What GetByIncident returns replays to the incident's phase when the last decision's time is the latest. */
  lemma {:induction false} QueryReplaysToStore(s: State, calls: seq<Call>, id: string, result: seq<Record>)
    requires id in s.store.incidents && s.records == []
    requires var trail := Select(DecideAll(s, calls).records, id, None);
             LastIsLatest(trail) && TimeOrdered(result) && multiset(result) == multiset(trail)
    ensures id in DecideAll(s, calls).store.incidents
    ensures DecideAll(s, calls).store.incidents[id].phase == Replay(s.store.incidents[id].phase, result)
  {
    LogReplaysToStore(s, calls, id, s.store.incidents[id]);
    ReplayByTime(s.store.incidents[id].phase, Select(DecideAll(s, calls).records, id, None), result);
  }
}
