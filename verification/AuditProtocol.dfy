/** The audited handler among concurrent operations (services/backend/internal/handler/full_handler.go over
    approval.go). A call cancels the timer, reads, writes and only then, under another lock, appends its record;
    every other operation of the approval protocol may run in between. */
module AuditProtocol {
  import opened Text
  import opened Types
  import opened IncidentStore
  import opened AuditLog
  import Approval = ApprovalProtocol

  /** Wrote and Recorded hold the index of the call's own write, and Recorded that of its record. */
  datatype Stage = Running | Refused | Wrote(write: nat) | Recorded(write: nat, at: nat)

  /** A call of FullHandler; the times of its call are not used, and op is its operation in the protocol. */
  datatype FullCall = FullCall(op: nat, call: Call, stage: Stage)

  datatype Write = Write(id: string, phase: Phase)

  /** The protocol's state with the records; created holds each incident as it was created, writes every phase
      that was written, in order, and owner which call appended each record. */
  datatype System = System(sys: Approval.Sys, created: map<string, Incident>, calls: seq<FullCall>,
                           writes: seq<Write>, records: seq<Record>, owner: seq<nat>)

  /** Any event of the protocol, a call of the audited handler, or the append of a call that has written. */
  datatype Event = Base(event: Approval.Event) | Start(call: Call) | AppendRecord(k: nat, now: int)

  function KindOf(c: Call): Approval.Kind { if c.ApproveCall? then Approval.Approve else Approval.Reject }

  function Timed(c: Call, now: int): Call { c.(now := now) }

  predicate Writing(s: Approval.Sys, e: Approval.Event) { e.Step? && e.op < |s.ops| && s.ops[e.op].pc.Holding? }

  /** The read that finds no incident. */
  predicate Refusing(s: Approval.Sys, e: Approval.Event) {
    e.Step? && e.op < |s.ops| && s.ops[e.op].pc.Ready? && s.ops[e.op].id !in s.store.incidents
  }

  function WriteOf(op: Approval.Op): Write { Write(op.id, Approval.Decision(op.kind)) }

  function Advanced(c: FullCall, s: Approval.Sys, e: Approval.Event, writes: nat): FullCall {
    if !e.Step? || e.op != c.op || !c.stage.Running? then c
    else if Writing(s, e) then c.(stage := Wrote(writes))
    else if Refusing(s, e) then c.(stage := Refused)
    else c
  }

  function BaseNext(s: System, e: Approval.Event): System {
    System(Approval.Next(s.sys, e),
           if e.Create? then s.created[IncidentId(s.sys.store.nextID + 1) := e.inc] else s.created,
           seq(|s.calls|, k requires 0 <= k < |s.calls| => Advanced(s.calls[k], s.sys, e, |s.writes|)),
           s.writes + if Writing(s.sys, e) then [WriteOf(s.sys.ops[e.op])] else [],
           s.records, s.owner)
  }

  function StartNext(s: System, c: Call): System {
    s.(sys := Approval.Next(s.sys, Approval.Request(KindOf(c), c.id)),
       calls := s.calls + [FullCall(|s.sys.ops|, c, Running)])
  }

  function AppendNext(s: System, k: nat, now: int): System
    requires k < |s.calls| && s.calls[k].stage.Wrote?
  {
    var c := s.calls[k];
    s.(calls := s.calls[k := c.(stage := Recorded(c.stage.write, |s.records|))],
       records := s.records + [RecordOf(Timed(c.call, now))], owner := s.owner + [k])
  }

  function Next(s: System, e: Event): System {
    match e
    case Base(b) => BaseNext(s, b)
    case Start(c) => StartNext(s, c)
    case AppendRecord(k, now) => if k < |s.calls| && s.calls[k].stage.Wrote? then AppendNext(s, k, now) else s
  }

  function Run(s: System, es: seq<Event>): System
    decreases |es|
  {
    if es == [] then s else Run(Next(s, es[0]), es[1..])
  }

  function Init(): System { System(Approval.Init(), map[], [], [], [], []) }

  /** The phase last written to an incident, or the given one if none was. */
  function LastWrite(writes: seq<Write>, id: string, phase: Phase): Phase {
    if writes == [] then phase
    else if writes[|writes| - 1].id == id then writes[|writes| - 1].phase
    else LastWrite(writes[..|writes| - 1], id, phase)
  }

  // ---------------------------------------------------------------- the invariant of every run

  predicate RecordsCall(r: Record, c: Call) { r == RecordOf(Timed(c, r.timestamp)) }

  predicate CallOk(s: System, k: nat)
    requires k < |s.calls|
  {
    var c := s.calls[k];
    && c.op < |s.sys.ops| && s.sys.ops[c.op].kind == KindOf(c.call) && s.sys.ops[c.op].id == c.call.id
    && (match c.stage
        case Running => true
        case Refused => s.sys.ops[c.op].pc.Finished?
        case Wrote(w) => w < |s.writes| && s.writes[w] == Write(c.call.id, PhaseOf(c.call))
            && s.sys.ops[c.op].pc.Finished?
        case Recorded(w, at) =>
          && w < |s.writes| && s.writes[w] == Write(c.call.id, PhaseOf(c.call)) && s.sys.ops[c.op].pc.Finished?
          && at < |s.owner| && s.owner[at] == k)
  }

  predicate RecordOk(s: System, j: nat)
    requires j < |s.records| && j < |s.owner|
  {
    var k := s.owner[j];
    && k < |s.calls| && s.calls[k].stage.Recorded? && s.calls[k].stage.at == j
    && RecordsCall(s.records[j], s.calls[k].call)
  }

  predicate Inv(s: System) {
    && Approval.Inv(s.sys)
    && s.created.Keys == s.sys.store.incidents.Keys
    && (forall id <- s.created :: s.sys.store.incidents[id].phase == LastWrite(s.writes, id, s.created[id].phase))
    && (forall w <- s.writes :: w.id in s.created)
    && (forall k | 0 <= k < |s.calls| :: CallOk(s, k))
    && |s.owner| == |s.records|
    && (forall j | 0 <= j < |s.records| :: RecordOk(s, j))
  }

  lemma {:induction false} UnwrittenPhase(writes: seq<Write>, id: string, phase: Phase)
    requires forall w <- writes :: w.id != id
    ensures LastWrite(writes, id, phase) == phase
  {
    if writes == [] {
    } else {
      UnwrittenPhase(writes[..|writes| - 1], id, phase);
    }
  }

  lemma LastWriteAppend(writes: seq<Write>, w: Write, id: string, phase: Phase)
    ensures LastWrite(writes + [w], id, phase) == if w.id == id then w.phase else LastWrite(writes, id, phase)
    ensures writes + [] == writes
  {
    assert (writes + [w])[..|writes|] == writes;
  }

  /** Operations keep their kind and incident, and one that has finished stays so. */
  lemma OpsKept(s: Approval.Sys, e: Approval.Event, i: nat)
    requires i < |s.ops|
    ensures var s' := Approval.Next(s, e);
      && i < |s'.ops| && s'.ops[i].kind == s.ops[i].kind && s'.ops[i].id == s.ops[i].id
      && (s.ops[i].pc.Finished? ==> s'.ops[i].pc.Finished?)
  {
    hide Approval.CancelOps;
    match e {
      case StartApprovalTimeout(id) => Approval.CancelShape(s, id);
      case CancelTimeout(id) => Approval.CancelShape(s, id);
      case Step(j) => if j < |s.ops| { Approval.CancelShape(s, s.ops[j].id); }
      case _ =>
    }
  }

  /** Only creations and writes change the incidents. */
  lemma StoreKept(s: Approval.Sys, e: Approval.Event)
    ensures e.Create? ==> Approval.Next(s, e).store == Created(s.store, e.inc)
    ensures var s' := Approval.Next(s, e);
      !e.Create? && !Writing(s, e) ==> s'.store.incidents == s.store.incidents
    ensures Writing(s, e) ==>
      var op := s.ops[e.op];
      Approval.Next(s, e).store == Updated(s.store, op.id, op.pc.inc.(phase := WriteOf(op).phase))
  {}

  lemma StepFinishes(s: Approval.Sys, e: Approval.Event)
    ensures Refusing(s, e) ==> Approval.Next(s, e).ops[e.op].pc.Finished?
    ensures Writing(s, e) && s.ops[e.op].kind != Approval.Timer ==> Approval.Next(s, e).ops[e.op].pc.Finished?
  {}

  lemma AdvancedOk(s: System, e: Approval.Event, k: nat)
    requires Inv(s) && k < |s.calls|
    ensures CallOk(BaseNext(s, e), k)
  {
    var c := s.calls[k];
    assert CallOk(s, k);
    OpsKept(s.sys, e, c.op);
    StepFinishes(s.sys, e);
  }

  lemma Known(s: System, id: string)
    requires Inv(s)
    ensures id in s.created <==> id in s.sys.store.incidents
    ensures id in s.created ==> s.sys.store.incidents[id].phase == LastWrite(s.writes, id, s.created[id].phase)
    ensures IncidentId(s.sys.store.nextID + 1) !in s.created
  {
    hide CallOk, RecordOk, LastWrite, IncidentId;
    NextIsFresh(s.sys.store);
  }

  lemma WritesKnown(s: System)
    requires Inv(s)
    ensures s.created.Keys == s.sys.store.incidents.Keys && forall w <- s.writes :: w.id in s.created
  {
    hide CallOk, RecordOk, LastWrite;
  }

  lemma PhasesKept(s: System, e: Approval.Event, id: string)
    requires Inv(s) && id in s.created
    ensures var s' := BaseNext(s, e);
      && id in s'.created && s'.created[id] == s.created[id] && id in s'.sys.store.incidents
      && s'.sys.store.incidents[id].phase == LastWrite(s'.writes, id, s.created[id].phase)
  {
    hide Approval.Next, Inv, LastWrite;
    Known(s, id);
    StoreKept(s.sys, e);
    assert s.writes + [] == s.writes;
    if Writing(s.sys, e) {
      LastWriteAppend(s.writes, WriteOf(s.sys.ops[e.op]), id, s.created[id].phase);
    }
  }

  /** What is held was read, so it is stored. */
  lemma WritesStored(s: System, e: Approval.Event)
    requires Inv(s) && Writing(s.sys, e)
    ensures s.sys.ops[e.op].id in s.sys.store.incidents
  {
    hide CallOk, RecordOk, LastWrite;
  }

  lemma BaseKeysKept(s: System, e: Approval.Event)
    requires Inv(s)
    ensures var s' := BaseNext(s, e);
      && s'.created.Keys == s'.sys.store.incidents.Keys
      && (forall w <- s'.writes :: w.id in s'.created)
  {
    hide Approval.Next, Inv, WriteOf;
    WritesKnown(s);
    if Writing(s.sys, e) {
      WritesStored(s, e);
      assert WriteOf(s.sys.ops[e.op]).id == s.sys.ops[e.op].id by { WriteId(s.sys.ops[e.op]); }
    }
    StoreKept(s.sys, e);
  }

  lemma WriteId(op: Approval.Op)
    ensures WriteOf(op).id == op.id
  {}

  lemma NewIncidentOk(s: System, e: Approval.Event)
    requires Inv(s) && e.Create?
    ensures var s', id := BaseNext(s, e), IncidentId(s.sys.store.nextID + 1);
      id in s'.created && id in s'.sys.store.incidents
      && s'.sys.store.incidents[id].phase == LastWrite(s'.writes, id, s'.created[id].phase)
  {
    hide Approval.Next, WriteOf, Inv;
    var id := IncidentId(s.sys.store.nextID + 1);
    StoreKept(s.sys, e);
    Known(s, id);
    WritesKnown(s);
    assert s.writes + [] == s.writes;
    UnwrittenPhase(s.writes, id, e.inc.phase);
  }

  lemma InvBase(s: System, e: Approval.Event)
    requires Inv(s)
    ensures Inv(BaseNext(s, e))
  {
    hide Approval.Next;
    var s' := BaseNext(s, e);
    Approval.InvNext(s.sys, e);
    BaseKeysKept(s, e);
    forall id | id in s'.created
      ensures s'.sys.store.incidents[id].phase == LastWrite(s'.writes, id, s'.created[id].phase)
    {
      if id in s.created { PhasesKept(s, e, id); } else { NewIncidentOk(s, e); }
    }
    forall k | 0 <= k < |s'.calls| ensures CallOk(s', k) { AdvancedOk(s, e, k); }
    forall j | 0 <= j < |s'.records| ensures RecordOk(s', j) { assert RecordOk(s, j); }
  }

  lemma InvStart(s: System, c: Call)
    requires Inv(s)
    ensures Inv(StartNext(s, c))
  {
    var s', e := StartNext(s, c), Approval.Request(KindOf(c), c.id);
    Approval.InvNext(s.sys, e);
    forall k | 0 <= k < |s'.calls| ensures CallOk(s', k) {
      if k < |s.calls| {
        assert CallOk(s, k);
        OpsKept(s.sys, e, s.calls[k].op);
      }
    }
    forall j | 0 <= j < |s'.records| ensures RecordOk(s', j) { assert RecordOk(s, j); }
  }

  lemma InvAppend(s: System, k: nat, now: int)
    requires Inv(s) && k < |s.calls| && s.calls[k].stage.Wrote?
    ensures Inv(AppendNext(s, k, now))
  {
    var s' := AppendNext(s, k, now);
    forall i | 0 <= i < |s'.calls| ensures CallOk(s', i) { assert CallOk(s, i); }
    forall j | 0 <= j < |s'.records| ensures RecordOk(s', j) {
      if j < |s.records| { assert RecordOk(s, j); }
    }
  }

  lemma InvNext(s: System, e: Event)
    requires Inv(s)
    ensures Inv(Next(s, e))
  {
    match e {
      case Base(b) => InvBase(s, b);
      case Start(c) => InvStart(s, c);
      case AppendRecord(k, now) => if k < |s.calls| && s.calls[k].stage.Wrote? { InvAppend(s, k, now); }
    }
  }

  lemma {:induction false} InvRun(s: System, es: seq<Event>)
    requires Inv(s)
    ensures Inv(Run(s, es))
    decreases |es|
  {
    if es == [] {
    } else {
      InvNext(s, es[0]);
      InvRun(Next(s, es[0]), es[1..]);
    }
  }

  // ---------------------------------------------------------------- one record for each completed call

  predicate Owned(calls: seq<FullCall>, j: nat) {
    exists k | 0 <= k < |calls| :: calls[k].stage.Recorded? && calls[k].stage.at == j
  }

  /** The record names the call's incident, who made it, and what it decided, with the reason of a rejection. */
  predicate TellsOf(r: Record, c: Call) {
    && r.incidentId == c.id && r.actor == c.who
    && match c
       case ApproveCall(_, _, _) => r.kind == ActionApproved && r.details == map[]
       case RejectCall(_, _, reason, _) => r.kind == ActionRejected && r.details == map["reason" := reason]
  }

  /** In every interleaving a call that has completed wrote its phase and appended exactly one record, its own; no
      two calls share one, and no record is anyone else's. */
  lemma OneRecordEach(es: seq<Event>)
    ensures var s := Run(Init(), es);
      && (forall k | 0 <= k < |s.calls| && s.calls[k].stage.Recorded? ::
            var c, r := s.calls[k], s.calls[k].stage;
            && r.at < |s.records| && TellsOf(s.records[r.at], c.call) && r.write < |s.writes|
            && s.writes[r.write] == Write(c.call.id, if c.call.ApproveCall? then PhaseExecuting else PhaseRejected))
      && (forall k, l | 0 <= k < l < |s.calls| && s.calls[k].stage.Recorded? && s.calls[l].stage.Recorded? ::
            s.calls[k].stage.at != s.calls[l].stage.at)
      && (forall j | 0 <= j < |s.records| :: Owned(s.calls, j))
  {
    var s := Run(Init(), es);
    InvRun(Init(), es);
    forall k | 0 <= k < |s.calls| && s.calls[k].stage.Recorded?
      ensures s.calls[k].stage.at < |s.records| && s.owner[s.calls[k].stage.at] == k
      ensures RecordsCall(s.records[s.calls[k].stage.at], s.calls[k].call)
      ensures s.calls[k].stage.write < |s.writes|
      ensures s.writes[s.calls[k].stage.write] == Write(s.calls[k].call.id, PhaseOf(s.calls[k].call))
    {
      assert CallOk(s, k);
      assert RecordOk(s, s.calls[k].stage.at);
    }
    forall j | 0 <= j < |s.records| ensures Owned(s.calls, j) {
      assert RecordOk(s, j);
      assert s.calls[s.owner[j]].stage.at == j;
    }
  }

  // ---------------------------------------------------------------- when the log agrees with the store

  function Trail(s: System, id: string): seq<Record> { Select(s.records, id, None) }

  /** The records of an incident replay to its stored phase. */
  predicate Agrees(s: System, id: string) {
    && id in s.created && id in s.sys.store.incidents
    && s.sys.store.incidents[id].phase == Replay(s.created[id].phase, Trail(s, id))
  }

  /** After any run, whatever ran in it, the log agrees with the store exactly when the phase written last is the
      phase recorded last. */
  lemma AgreementExact(es: seq<Event>, id: string)
    requires id in Run(Init(), es).created
    ensures var s := Run(Init(), es);
      Agrees(s, id) <==> LastWrite(s.writes, id, s.created[id].phase) == Replay(s.created[id].phase, Trail(s, id))
  {
    InvRun(Init(), es);
  }

  /** At a write on the incident since the given one, the latest of them, has another phase. */
  predicate Overtaken(writes: seq<Write>, from: nat, id: string, phase: Phase)
    requires from <= |writes|
  {
    LastWrite(writes[from..], id, phase) != phase
  }

  lemma {:induction false} LastWriteSince(writes: seq<Write>, from: nat, id: string, phase: Phase)
    requires from < |writes| && writes[from].id == id
    ensures LastWrite(writes, id, phase) == LastWrite(writes[from..], id, phase)
    decreases |writes|
  {
    var n := |writes| - 1;
    assert writes[from..][|writes| - from - 1] == writes[n];
    if from < n {
      assert writes[..n][from..] == writes[from..][..n - from];
      if writes[n].id != id { LastWriteSince(writes[..n], from, id, phase); }
    }
  }

  lemma LastWriteIgnoresStart(writes: seq<Write>, from: nat, id: string, a: Phase, b: Phase)
    requires from < |writes| && writes[from].id == id
    ensures LastWrite(writes, id, a) == LastWrite(writes, id, b)
    decreases |writes|
  {
    var n := |writes| - 1;
    if writes[n].id != id { LastWriteIgnoresStart(writes[..n], from, id, a, b); }
  }

  /** After an append on an incident its log replays to the call's phase; other incidents do not see it. */
  lemma AppendReplays(s: System, k: nat, now: int, id: string)
    requires k < |s.calls| && s.calls[k].stage.Wrote? && id in s.created && id in s.sys.store.incidents
    ensures s.calls[k].call.id == id ==>
      (Agrees(AppendNext(s, k, now), id) <==> PhaseOf(s.calls[k].call) == s.sys.store.incidents[id].phase)
    ensures s.calls[k].call.id != id ==> (Agrees(AppendNext(s, k, now), id) <==> Agrees(s, id))
  {
    var r := RecordOf(Timed(s.calls[k].call, now));
    SelectAppend(s.records, r, id);
    ReplayLast(s.created[id].phase, Trail(s, id), r);
  }

  lemma HasWrittenOnce(s: System, k: nat)
    requires Inv(s) && k < |s.calls| && s.calls[k].stage.Wrote?
    ensures var w := s.calls[k].stage.write;
      && w < |s.writes| && s.writes[w] == Write(s.calls[k].call.id, PhaseOf(s.calls[k].call))
      && s.calls[k].call.id in s.created
  {
    hide LastWrite, RecordOk, Approval.Inv;
    assert CallOk(s, k);
    assert s.writes[s.calls[k].stage.write] in s.writes;
  }

  /** One append restores agreement exactly when the call's own write has not been overtaken by a write of
      another decision. */
  lemma AppendRestoresExactly(s: System, k: nat, now: int)
    requires Inv(s) && k < |s.calls| && s.calls[k].stage.Wrote?
    ensures var c := s.calls[k];
      && c.stage.write <= |s.writes|
      && (Agrees(Next(s, AppendRecord(k, now)), c.call.id)
          <==> !Overtaken(s.writes, c.stage.write, c.call.id, PhaseOf(c.call)))
  {
    hide Inv, AppendNext, LastWrite, Agrees, PhaseOf;
    var c := s.calls[k];
    var id, w, phase := c.call.id, c.stage.write, PhaseOf(c.call);
    HasWrittenOnce(s, k);
    Known(s, id);
    LastWriteSince(s.writes, w, id, phase);
    LastWriteIgnoresStart(s.writes, w, id, phase, s.created[id].phase);
    AppendReplays(s, k, now, id);
  }

  /** No write of another decision on the incident since the given one. */
  predicate Unopposed(writes: seq<Write>, from: nat, id: string, phase: Phase) {
    forall j | from <= j < |writes| && writes[j].id == id :: writes[j].phase == phase
  }

  lemma {:induction false} UnopposedNotOvertaken(writes: seq<Write>, from: nat, id: string, phase: Phase)
    requires from <= |writes| && Unopposed(writes, from, id, phase)
    ensures !Overtaken(writes, from, id, phase)
    decreases |writes|
  {
    if from < |writes| {
      var n := |writes| - 1;
      assert writes[from..][n - from] == writes[n];
      assert writes[..n][from..] == writes[from..][..n - from];
      UnopposedNotOvertaken(writes[..n], from, id, phase);
    }
  }

  /** What takes the log and the store apart: a write of another phase than the stored one, or the append of a
      decision that is not the stored one. */
  predicate Departs(s: System, e: Event, id: string)
    requires id in s.sys.store.incidents
  {
    var phase := s.sys.store.incidents[id].phase;
    match e
    case Base(b) => Writing(s.sys, b) && WriteOf(s.sys.ops[b.op]).id == id && WriteOf(s.sys.ops[b.op]).phase != phase
    case Start(_) => false
    case AppendRecord(k, _) =>
      k < |s.calls| && s.calls[k].stage.Wrote? && s.calls[k].call.id == id && PhaseOf(s.calls[k].call) != phase
  }

  /** From agreement, a step keeps it if and only if it is not such a step. */
  lemma AgreesNext(s: System, e: Event, id: string)
    requires Inv(s) && Agrees(s, id)
    ensures Agrees(Next(s, e), id) <==> !Departs(s, e, id)
  {
    hide Approval.Next, Inv, AppendNext;
    match e {
      case Base(b) => PhasesKept(s, b, id); BaseDeparts(s, b, id);
      case Start(c) => StoreKept(s.sys, Approval.Request(KindOf(c), c.id));
      case AppendRecord(k, now) =>
        if k < |s.calls| && s.calls[k].stage.Wrote? { AppendReplays(s, k, now, id); }
    }
  }

  lemma BaseDeparts(s: System, e: Approval.Event, id: string)
    requires Inv(s) && id in s.created && id in s.sys.store.incidents
    ensures id in BaseNext(s, e).sys.store.incidents
    ensures BaseNext(s, e).sys.store.incidents[id].phase == s.sys.store.incidents[id].phase
            <==> !Departs(s, Base(e), id)
  {
    hide Approval.Next, Inv;
    StoreKept(s.sys, e);
    Known(s, id);
  }

  // ---------------------------------------------------------------- one call without interruption

  /** Call k has an operation of its own, which stands at pc. */
  predicate Stands(s: System, k: nat, pc: Approval.Pc) {
    && k < |s.calls| && s.calls[k].stage.Running? && s.calls[k].op < |s.sys.ops|
    && s.sys.ops[s.calls[k].op].kind == KindOf(s.calls[k].call) && s.sys.ops[s.calls[k].op].id == s.calls[k].call.id
    && s.sys.ops[s.calls[k].op].pc == pc
    && (forall j | 0 <= j < |s.calls| && j != k :: s.calls[j].op != s.calls[k].op)
  }

  /** Nothing but the protocol's operations has changed. */
  predicate SameBut(s: System, s': System) {
    && s'.sys.store == s.sys.store && s'.created == s.created && s'.calls == s.calls
    && s'.writes == s.writes && s'.records == s.records && s'.owner == s.owner
    && |s'.sys.ops| == |s.sys.ops|
  }

  /** The other operations have at most lost their timers. */
  predicate OthersStand(s: System, s': System, op: nat) {
    && |s'.sys.ops| == |s.sys.ops|
    && forall i | 0 <= i < |s.sys.ops| && i != op ::
         s'.sys.ops[i].pc == s.sys.ops[i].pc && s'.sys.ops[i].kind == s.sys.ops[i].kind
             && s'.sys.ops[i].id == s.sys.ops[i].id
  }

  lemma CancelStep(s: System, k: nat)
    requires Stands(s, k, Approval.Waiting)
    ensures var s' := Next(s, Base(Approval.Step(s.calls[k].op)));
      SameBut(s, s') && Stands(s', k, Approval.Ready) && OthersStand(s, s', s.calls[k].op)
  {
    Approval.CancelShape(s.sys, s.calls[k].call.id);
    assert s.writes + [] == s.writes;
  }

  lemma ReadStep(s: System, k: nat)
    requires Stands(s, k, Approval.Ready) && s.calls[k].call.id in s.sys.store.incidents
    ensures var s' := Next(s, Base(Approval.Step(s.calls[k].op)));
      && SameBut(s, s') && OthersStand(s, s', s.calls[k].op)
      && Stands(s', k, Approval.Holding(s.sys.store.incidents[s.calls[k].call.id]))
  {
    assert s.writes + [] == s.writes;
  }

  /** What a call's write makes of the system. */
  predicate HasWritten(s: System, s': System, k: nat)
    requires k < |s.calls| && s.calls[k].call.id in s.sys.store.incidents
  {
    var c := s.calls[k];
    var id, phase := c.call.id, PhaseOf(c.call);
    && s'.sys.store == Updated(s.sys.store, id, s.sys.store.incidents[id].(phase := phase))
    && s'.created == s.created && s'.records == s.records && s'.owner == s.owner
    && s'.writes == s.writes + [Write(id, phase)]
    && s'.calls == s.calls[k := c.(stage := Wrote(|s.writes|))]
  }

  lemma WriteStep(s: System, k: nat)
    requires s.calls != [] && k < |s.calls| && s.calls[k].call.id in s.sys.store.incidents
    requires Stands(s, k, Approval.Holding(s.sys.store.incidents[s.calls[k].call.id]))
    ensures var s' := Next(s, Base(Approval.Step(s.calls[k].op)));
      HasWritten(s, s', k) && OthersStand(s, s', s.calls[k].op)
  {}

  function Thrice(s: System, op: nat): System {
    var e := Base(Approval.Step(op));
    Next(Next(Next(s, e), e), e)
  }

  lemma CallWrites(s: System, k: nat)
    requires Stands(s, k, Approval.Waiting) && s.calls[k].call.id in s.sys.store.incidents
    ensures HasWritten(s, Thrice(s, s.calls[k].op), k) && OthersStand(s, Thrice(s, s.calls[k].op), s.calls[k].op)
  {
    var e := Base(Approval.Step(s.calls[k].op));
    CancelStep(s, k);
    ReadStep(Next(s, e), k);
    WriteStep(Next(Next(s, e), e), k);
  }

  lemma CallRefused(s: System, k: nat)
    requires Stands(s, k, Approval.Waiting) && s.calls[k].call.id !in s.sys.store.incidents
    ensures var s' := Thrice(s, s.calls[k].op);
      && s'.sys.store == s.sys.store && s'.records == s.records
      && s'.calls == s.calls[k := s.calls[k].(stage := Refused)]
  {
    var e := Base(Approval.Step(s.calls[k].op));
    CancelStep(s, k);
    var s1 := Next(s, e);
    var s2 := Next(s1, e);
    assert s1.writes + [] == s1.writes && s2.writes + [] == s2.writes;
    assert s2.calls == s.calls[k := s.calls[k].(stage := Refused)];
  }

  lemma StartStep(s: System, c: Call)
    requires Inv(s)
    ensures Stands(Next(s, Start(c)), |s.calls|, Approval.Waiting)
  {
    forall j | 0 <= j < |s.calls| ensures s.calls[j].op != |s.sys.ops| { assert CallOk(s, j); }
  }

  function StateOf(s: System): State { State(s.sys.store, s.records) }

  /** A call that runs without interruption, from any reachable state, does what the serial specification of the
      handler says: both its phase and its record, or neither. */
  lemma SerialCall(s: System, c: Call, now: int)
    requires Inv(s)
    ensures var s1 := Thrice(Next(s, Start(c)), |s.sys.ops|);
      StateOf(Next(s1, AppendRecord(|s.calls|, now))) == Decide(StateOf(s), Timed(c, now))
  {
    var s0, k := Next(s, Start(c)), |s.calls|;
    StartStep(s, c);
    assert s0.calls[k].op == |s.sys.ops|;
    hide Inv, Thrice, RecordOf;
    if c.id in s.sys.store.incidents { CallWrites(s0, k); } else { CallRefused(s0, k); }
  }

  // ---------------------------------------------------------------- agreement can be lost

  /** Two calls, started together: the first writes, then the second. */
  function Overlap(s: System, a: Call, b: Call): System {
    Thrice(Thrice(Next(Next(s, Start(a)), Start(b)), |s.sys.ops|), |s.sys.ops| + 1)
  }

  lemma OverlapWrites(s: System, a: Call, b: Call)
    requires Inv(s) && a.id == b.id && a.id in s.sys.store.incidents
    ensures var s', k := Overlap(s, a, b), |s.calls|;
      && |s'.calls| == k + 2 && s'.records == s.records && s'.created == s.created
      && s'.calls[k] == FullCall(|s.sys.ops|, a, Wrote(|s.writes|))
      && s'.calls[k + 1] == FullCall(|s.sys.ops| + 1, b, Wrote(|s.writes| + 1))
      && a.id in s'.sys.store.incidents && s'.sys.store.incidents[a.id].phase == PhaseOf(b)
  {
    hide Next, Thrice;
    var k, n, s0 := |s.calls|, |s.sys.ops|, Next(Next(s, Start(a)), Start(b));
    BothStart(s, a, b);
    CallWrites(s0, k);
    OtherStands(s0, Thrice(s0, n), k, k + 1);
    CallWrites(Thrice(s0, n), k + 1);
  }

  lemma BothStart(s: System, a: Call, b: Call)
    requires Inv(s)
    ensures var s', k, n := Next(Next(s, Start(a)), Start(b)), |s.calls|, |s.sys.ops|;
      && Stands(s', k, Approval.Waiting) && Stands(s', k + 1, Approval.Waiting)
      && s'.calls == s.calls + [FullCall(n, a, Running), FullCall(n + 1, b, Running)]
      && s'.writes == s.writes && s'.records == s.records && s'.created == s.created && s'.sys.store == s.sys.store
  {
    StartStep(s, a);
    InvNext(s, Start(a));
    StartStep(Next(s, Start(a)), b);
  }

  lemma OtherStands(s: System, s': System, k: nat, j: nat)
    requires k < |s.calls| && s.calls[k].call.id in s.sys.store.incidents && j != k
    requires Stands(s, j, Approval.Waiting) && HasWritten(s, s', k) && OthersStand(s, s', s.calls[k].op)
    ensures Stands(s', j, Approval.Waiting)
  {}

  lemma TwoAppends(s: System, j: nat, k: nat, now1: int, now2: int)
    requires j < |s.calls| && k < |s.calls| && j != k && s.calls[j].stage.Wrote? && s.calls[k].stage.Wrote?
    ensures var s' := Next(Next(s, AppendRecord(j, now1)), AppendRecord(k, now2));
      && s'.sys == s.sys && s'.created == s.created
      && s'.records == (s.records + [RecordOf(Timed(s.calls[j].call, now1))]) + [RecordOf(Timed(s.calls[k].call, now2))]
  {}

  /** Overlapping calls can leave the log behind. From every reachable state and for every stored incident, if an
      approval and a rejection overlap, the rejection is written last and the approval recorded last, then both
      succeed, the incident is rejected, and its log replays to executing, whatever the times of the records. */
  lemma OverlapDisagrees(s: System, a: Call, r: Call, now1: int, now2: int)
    requires Inv(s) && a.ApproveCall? && r.RejectCall? && a.id == r.id && a.id in s.sys.store.incidents
    ensures var k, s1 := |s.calls|, Overlap(s, a, r);
      var s2 := Next(Next(s1, AppendRecord(k + 1, now1)), AppendRecord(k, now2));
      && a.id in s2.sys.store.incidents && s2.sys.store.incidents[a.id].phase == PhaseRejected
      && a.id in s2.created && Replay(s2.created[a.id].phase, Trail(s2, a.id)) == PhaseExecuting
      && !Agrees(s2, a.id)
  {
    hide Overlap, Thrice, Next;
    var k, s1 := |s.calls|, Overlap(s, a, r);
    OverlapWrites(s, a, r);
    TwoAppends(s1, k + 1, k, now1, now2);
    var r1, r2 := RecordOf(Timed(r, now1)), RecordOf(Timed(a, now2));
    SelectAppend(s.records + [r1], r2, a.id);
    ReplayLast(s.created[a.id].phase, Select(s.records + [r1], a.id, None), r2);
  }

  /** A decision over HTTP leaves no record, so the log does not replay to it. */
  lemma HttpDecisionDisagrees(inc: Incident)
    requires inc.phase == PhaseRequiresApproval
    ensures var id := IncidentId(1);
      var s := Run(Init(), [Base(Approval.Create(inc)), Base(Approval.Request(Approval.ApproveIncident, id)),
                            Base(Approval.Step(0)), Base(Approval.Step(0))]);
      && s.sys.store.incidents == map[id := inc.(phase := PhaseExecuting)] && s.records == [] && !Agrees(s, id)
  {
    var id := IncidentId(1);
    var es := [Base(Approval.Create(inc)), Base(Approval.Request(Approval.ApproveIncident, id)),
               Base(Approval.Step(0)), Base(Approval.Step(0))];
    var s1 := Next(Init(), es[0]);
    assert s1.sys.store.incidents == map[id := inc];
    var s2 := Next(s1, es[1]);
    assert s2.sys.ops == [Approval.Op(Approval.ApproveIncident, id, Approval.Ready, Approval.Active)];
    var s3 := Next(s2, es[2]);
    assert s3.sys.ops == [Approval.Op(Approval.ApproveIncident, id, Approval.Holding(inc), Approval.Active)];
    var s4 := Next(s3, es[3]);
    assert s4.sys.store.incidents == map[id := inc.(phase := PhaseExecuting)];
    FourSteps(Init(), es);
  }

  /** So does a timer that expires. */
  lemma TimerDecisionDisagrees(inc: Incident)
    requires inc.phase == PhaseRequiresApproval
    ensures var id := IncidentId(1);
      var s := Next(Next(Run(Init(), [Base(Approval.Create(inc)), Base(Approval.StartApprovalTimeout(id)),
                                      Base(Approval.Expire(0)), Base(Approval.Step(0))]),
                         Base(Approval.Step(0))), Base(Approval.Step(0)));
      && s.sys.store.incidents == map[id := inc.(phase := PhaseRejected)] && s.records == [] && !Agrees(s, id)
  {
    var id := IncidentId(1);
    var es := [Base(Approval.Create(inc)), Base(Approval.StartApprovalTimeout(id)),
               Base(Approval.Expire(0)), Base(Approval.Step(0))];
    var s1 := Next(Init(), es[0]);
    assert s1.sys.store.incidents == map[id := inc];
    var s2 := Next(s1, es[1]);
    assert s2.sys.ops == [Approval.Op(Approval.Timer, id, Approval.Waiting, Approval.Active)];
    var s3 := Next(s2, es[2]);
    var s4 := Next(s3, es[3]);
    assert s4.sys.ops == [Approval.Op(Approval.Timer, id, Approval.Ready, Approval.DeadlineExceeded)];
    FourSteps(Init(), es);
    ExpiredTimerWrites(s4, inc);
  }

  lemma ExpiredTimerWrites(s: System, inc: Incident)
    requires var id := IncidentId(1);
      && s.sys.ops == [Approval.Op(Approval.Timer, id, Approval.Ready, Approval.DeadlineExceeded)]
      && s.sys.store.incidents == map[id := inc] && inc.phase == PhaseRequiresApproval
    ensures var s' := Next(Next(s, Base(Approval.Step(0))), Base(Approval.Step(0)));
      && s'.sys.store.incidents == map[IncidentId(1) := inc.(phase := PhaseRejected)]
      && s'.records == s.records && s'.created == s.created
  {
    var s1 := Next(s, Base(Approval.Step(0)));
    assert s1.sys.ops == [Approval.Op(Approval.Timer, IncidentId(1), Approval.Holding(inc), Approval.DeadlineExceeded)];
  }

  lemma FourSteps(s: System, es: seq<Event>)
    requires |es| == 4
    ensures Run(s, es) == Next(Next(Next(Next(s, es[0]), es[1]), es[2]), es[3])
  {
    var s2, t := Next(Next(s, es[0]), es[1]), es[2..];
    assert es[1..][1..] == t && Run(s, es) == Run(s2, t);
    assert t[1..] == [es[3]] && Run(Next(s2, t[0]), [es[3]]) == Run(Next(Next(s2, t[0]), es[3]), []);
  }
}
