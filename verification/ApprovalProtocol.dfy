/** The approval protocol (services/backend/internal/handler/approval.go) over the shared incident store.
    HTTP requests, direct calls and timer goroutines interleave; each locked section (a store read, a store
    write, or a use of the cancel-function table) is one step. */
module ApprovalProtocol {
  import opened Types
  import opened IncidentStore

  /** ApproveIncident and RejectIncident answer HTTP requests; Approve and Reject are the ApprovalHandler's
      methods, which check no phase; Timer is the goroutine of StartApprovalTimeout. */
  datatype Kind = ApproveIncident | RejectIncident | Timer | Approve | Reject

  datatype Pc = Waiting | Ready | Holding(inc: Incident) | Cleaning | Finished

  /** How a timer's context ended; whichever comes first, cancellation or deadline, is final. */
  datatype Context = Active | Cancelled | DeadlineExceeded

  datatype Op = Op(kind: Kind, id: string, pc: Pc, ctx: Context)

  datatype Sys = Sys(store: StoreState, ops: seq<Op>, cancelFuncs: map<string, nat>)

  datatype Event =
    | Create(inc: Incident)
    | Request(kind: Kind, id: string)
    | StartApprovalTimeout(id: string)
    | CancelTimeout(id: string)
    | Expire(op: nat)
    | Step(op: nat)

  function Decision(kind: Kind): Phase {
    if kind == ApproveIncident || kind == Approve then PhaseExecuting else PhaseRejected
  }

  /** Whether the operation checks for RequiresApproval before it writes. */
  predicate Guarded(kind: Kind) { kind in {ApproveIncident, RejectIncident, Timer} }

  function CancelAt(ops: seq<Op>, i: nat): seq<Op> {
    if i < |ops| && ops[i].ctx == Active then ops[i := ops[i].(ctx := Cancelled)] else ops
  }

  /** Cancels the registered timer of an incident, if there is one. */
  function CancelOps(s: Sys, id: string): seq<Op> {
    if id in s.cancelFuncs then CancelAt(s.ops, s.cancelFuncs[id]) else s.ops
  }

  function SetPc(s: Sys, i: nat, pc: Pc): Sys
    requires i < |s.ops|
  {
    s.(ops := s.ops[i := s.ops[i].(pc := pc)])
  }

  /** The next locked section of operation i; an operation that cannot move stays. */
  function Advance(s: Sys, i: nat): Sys
    requires i < |s.ops|
  {
    var op := s.ops[i];
    match op.pc
    case Waiting =>
      if op.kind == Timer then
        match op.ctx
        case Active => s
        case Cancelled => SetPc(s, i, Finished)
        case DeadlineExceeded => SetPc(s, i, Ready)
      else
        SetPc(s.(ops := CancelOps(s, op.id), cancelFuncs := s.cancelFuncs - {op.id}), i, Ready)
    case Ready =>
      if op.id !in s.store.incidents then SetPc(s, i, Finished)
      else if Guarded(op.kind) && s.store.incidents[op.id].phase != PhaseRequiresApproval then
        SetPc(s, i, if op.kind == Timer then Cleaning else Finished)
      else SetPc(s, i, Holding(s.store.incidents[op.id]))
    case Holding(inc) =>
      SetPc(s.(store := Updated(s.store, op.id, inc.(phase := Decision(op.kind)))), i,
            if op.kind == Timer then Cleaning else Finished)
    case Cleaning => SetPc(s.(cancelFuncs := s.cancelFuncs - {op.id}), i, Finished)
    case Finished => s
  }

  function Next(s: Sys, e: Event): Sys {
    match e
    case Create(inc) => s.(store := Created(s.store, inc))
    case Request(kind, id) =>
      if kind == Timer then s
      else s.(ops := s.ops + [Op(kind, id, if Guarded(kind) then Ready else Waiting, Active)])
    case StartApprovalTimeout(id) =>
      Sys(s.store, CancelOps(s, id) + [Op(Timer, id, Waiting, Active)], s.cancelFuncs[id := |s.ops|])
    case CancelTimeout(id) => s.(ops := CancelOps(s, id), cancelFuncs := s.cancelFuncs - {id})
    case Expire(i) =>
      if i < |s.ops| && s.ops[i].kind == Timer && s.ops[i].ctx == Active
      then s.(ops := s.ops[i := s.ops[i].(ctx := DeadlineExceeded)])
      else s
    case Step(i) => if i < |s.ops| then Advance(s, i) else s
  }

  function Run(s: Sys, es: seq<Event>): Sys
    decreases |es|
  {
    if es == [] then s else Run(Next(s, es[0]), es[1..])
  }

  function Init(): Sys { Sys(StoreState(map[], 0), [], map[]) }

  // ---------------------------------------------------------------- the invariant of every run

  predicate SameButPhase(a: Incident, b: Incident) { a.(phase := b.phase) == b }

  predicate Inv(s: Sys) {
    && Numbered(s.store)
    && (forall i :: 0 <= i < |s.ops| && s.ops[i].pc.Holding? ==>
          && s.ops[i].id in s.store.incidents
          && SameButPhase(s.ops[i].pc.inc, s.store.incidents[s.ops[i].id]))
    && (forall i :: 0 <= i < |s.ops| && s.ops[i].kind == Timer && s.ops[i].ctx == Active ==> s.ops[i].pc == Waiting)
    && (forall i :: 0 <= i < |s.ops| && s.ops[i].pc == Cleaning ==> s.ops[i].kind == Timer)
    && (forall id :: id in s.cancelFuncs ==>
          s.cancelFuncs[id] < |s.ops| && s.ops[s.cancelFuncs[id]].kind == Timer && s.ops[s.cancelFuncs[id]].id == id)
  }

  lemma CancelShape(s: Sys, id: string)
    ensures |CancelOps(s, id)| == |s.ops|
    ensures forall i :: 0 <= i < |s.ops| ==>
              CancelOps(s, id)[i] in {s.ops[i], s.ops[i].(ctx := Cancelled)}
  {}

  lemma InvCancel(s: Sys, id: string)
    requires Inv(s)
    ensures Inv(s.(ops := CancelOps(s, id)))
    ensures Inv(s.(ops := CancelOps(s, id), cancelFuncs := s.cancelFuncs - {id}))
  {
    CancelShape(s, id);
  }

  lemma InvUpdate(s: Sys, id: string, inc: Incident)
    requires Inv(s) && id in s.store.incidents && SameButPhase(inc, s.store.incidents[id])
    ensures Inv(s.(store := Updated(s.store, id, inc)))
  {}

  lemma InvSetPc(s: Sys, i: nat, pc: Pc)
    requires Inv(s) && i < |s.ops|
    requires s.ops[i].kind == Timer && s.ops[i].ctx == Active ==> pc == Waiting
    requires pc == Cleaning ==> s.ops[i].kind == Timer
    requires pc.Holding? ==> s.ops[i].id in s.store.incidents && SameButPhase(pc.inc, s.store.incidents[s.ops[i].id])
    ensures Inv(SetPc(s, i, pc))
  {}

  lemma InvCall(s: Sys, i: nat)
    requires Inv(s) && i < |s.ops| && s.ops[i].pc == Waiting && s.ops[i].kind != Timer
    ensures Inv(Advance(s, i))
  {
    hide CancelOps, Inv;
    var id := s.ops[i].id;
    InvCancel(s, id);
    CancelShape(s, id);
    InvSetPc(s.(ops := CancelOps(s, id), cancelFuncs := s.cancelFuncs - {id}), i, Ready);
  }

  /** The cases in which an operation only moves on. */
  lemma InvMoves(s: Sys, i: nat)
    requires Inv(s) && i < |s.ops| && s.ops[i].pc in {Waiting, Ready, Cleaning}
    requires s.ops[i].pc == Waiting ==> s.ops[i].kind == Timer
    ensures Inv(Advance(s, i))
  {
    var op := s.ops[i];
    if op.pc == Cleaning {
      InvUnregister(s, op.id);
      InvSetPc(s.(cancelFuncs := s.cancelFuncs - {op.id}), i, Finished);
    } else if Advance(s, i) != s {
      InvSetPc(s, i, Advance(s, i).ops[i].pc);
    }
  }

  lemma InvUnregister(s: Sys, id: string)
    requires Inv(s)
    ensures Inv(s.(cancelFuncs := s.cancelFuncs - {id}))
  {}

  lemma InvWrites(s: Sys, i: nat)
    requires Inv(s) && i < |s.ops| && s.ops[i].pc.Holding?
    ensures Inv(Advance(s, i))
  {
    var op := s.ops[i];
    var inc := op.pc.inc.(phase := Decision(op.kind));
    InvUpdate(s, op.id, inc);
    InvSetPc(s.(store := Updated(s.store, op.id, inc)), i, if op.kind == Timer then Cleaning else Finished);
  }

  lemma InvAdvance(s: Sys, i: nat)
    requires Inv(s) && i < |s.ops|
    ensures Inv(Advance(s, i))
  {
    hide Inv;
    var op := s.ops[i];
    if op.pc.Holding? {
      InvWrites(s, i);
    } else if op.pc == Waiting && op.kind != Timer {
      InvCall(s, i);
    } else if op.pc != Finished {
      InvMoves(s, i);
    }
  }

  lemma InvNext(s: Sys, e: Event)
    requires Inv(s)
    ensures Inv(Next(s, e))
  {
    hide CancelOps, Advance;
    match e {
      case Create(inc) => CreateIsFresh(s.store, inc);
      case Request(kind, id) =>
      case StartApprovalTimeout(id) => InvStart(s, id);
      case CancelTimeout(id) => InvCancel(s, id);
      case Expire(i) =>
      case Step(i) => if i < |s.ops| { InvAdvance(s, i); }
    }
  }

  lemma InvStart(s: Sys, id: string)
    requires Inv(s)
    ensures Inv(Next(s, StartApprovalTimeout(id)))
  {
    hide CancelOps;
    InvCancel(s, id);
    CancelShape(s, id);
  }

  lemma {:induction false} InvRun(s: Sys, es: seq<Event>)
    requires Inv(s)
    ensures Inv(Run(s, es))
    decreases |es|
  {
    if es == [] {
    } else {
      InvNext(s, es[0]);
      InvRun(Next(s, es[0]), es[1..]);
    }
  }

  lemma {:induction false} RunAppend(s: Sys, a: seq<Event>, b: seq<Event>)
    ensures Run(s, a + b) == Run(Run(s, a), b)
    decreases |a|
  {
    if a == [] {
      assert a + b == b;
    } else {
      assert (a + b)[1..] == a[1..] + b;
      RunAppend(Next(s, a[0]), a[1..], b);
    }
  }

  // ---------------------------------------------------------------- no way back, nothing but the phase

  lemma NextKeepsFields(s: Sys, e: Event, id: string)
    requires Inv(s) && id in s.store.incidents
    ensures id in Next(s, e).store.incidents
    ensures SameButPhase(s.store.incidents[id], Next(s, e).store.incidents[id])
    ensures Next(s, e).store.incidents[id].phase in {s.store.incidents[id].phase, PhaseExecuting, PhaseRejected}
  {
    if e.Create? { CreateIsFresh(s.store, e.inc); }
  }

  /** In every interleaving of all five kinds of operation, a stored incident stays stored, keeps every field but
      its phase, and never comes back to RequiresApproval once it has left it. */
  lemma {:induction false} NeverReturns(s: Sys, es: seq<Event>, id: string)
    requires Inv(s) && id in s.store.incidents
    ensures id in Run(s, es).store.incidents
    ensures SameButPhase(s.store.incidents[id], Run(s, es).store.incidents[id])
    ensures Run(s, es).store.incidents[id].phase in {s.store.incidents[id].phase, PhaseExecuting, PhaseRejected}
    decreases |es|
  {
    if es == [] {
    } else {
      InvNext(s, es[0]);
      NextKeepsFields(s, es[0], id);
      NeverReturns(Next(s, es[0]), es[1..], id);
    }
  }

  // ---------------------------------------------------------------- late decisions

  predicate InFlightOp(op: Op, id: string) { op.pc.Holding? && op.id == id }

  /** The operations that have read the incident and not yet written it. */
  function InFlight(ops: seq<Op>, id: string): nat {
    if ops == [] then 0
    else InFlight(ops[..|ops| - 1], id) + if InFlightOp(ops[|ops| - 1], id) then 1 else 0
  }

  lemma {:induction false} InFlightUpdate(ops: seq<Op>, i: nat, op: Op, id: string)
    requires i < |ops|
    ensures InFlight(ops[i := op], id) == InFlight(ops, id) - (if InFlightOp(ops[i], id) then 1 else 0)
                                          + (if InFlightOp(op, id) then 1 else 0)
  {
    var before := ops[..|ops| - 1];
    if i < |before| {
      assert ops[i := op][..|ops| - 1] == before[i := op];
      InFlightUpdate(before, i, op, id);
    } else {
      assert ops[i := op][..|ops| - 1] == before;
    }
  }

  /** Only the phase-checking operations take part. */
  predicate GuardedOps(s: Sys) { forall i :: 0 <= i < |s.ops| ==> Guarded(s.ops[i].kind) }

  predicate GuardedEvent(e: Event) { e.Request? ==> Guarded(e.kind) }

  predicate GuardedEvents(es: seq<Event>) { forall e :: e in es ==> GuardedEvent(e) }

  /** The event is the write of an operation on this incident. */
  predicate Writes(s: Sys, e: Event, id: string) { e.Step? && e.op < |s.ops| && InFlightOp(s.ops[e.op], id) }

  function WriteCount(s: Sys, es: seq<Event>, id: string): nat
    decreases |es|
  {
    if es == [] then 0 else (if Writes(s, es[0], id) then 1 else 0) + WriteCount(Next(s, es[0]), es[1..], id)
  }

  predicate Decided(s: Sys, id: string) {
    id in s.store.incidents && s.store.incidents[id].phase != PhaseRequiresApproval
  }

  lemma CancelInFlight(s: Sys, id': string, id: string)
    ensures InFlight(CancelOps(s, id'), id) == InFlight(s.ops, id)
  {
    if id' in s.cancelFuncs && s.cancelFuncs[id'] < |s.ops| {
      var i := s.cancelFuncs[id'];
      InFlightUpdate(s.ops, i, s.ops[i].(ctx := Cancelled), id);
    }
  }

  /** Whoever is in flight afterwards was in flight before, with the same decision. */
  predicate NoneJoined(before: seq<Op>, after: seq<Op>, id: string) {
    forall i :: 0 <= i < |after| && InFlightOp(after[i], id) ==>
                  i < |before| && InFlightOp(before[i], id) && before[i].kind == after[i].kind
  }

  /** A step after the decision: a write uses up one operation in flight; anything else leaves the incident alone. */
  predicate LateStep(s: Sys, s': Sys, writes: bool, id: string) {
    && GuardedOps(s') && Decided(s', id)
    && InFlight(s'.ops, id) + (if writes then 1 else 0) == InFlight(s.ops, id)
    && (!writes && id in s.store.incidents ==> s'.store.incidents[id] == s.store.incidents[id])
    && NoneJoined(s.ops, s'.ops, id)
  }

  lemma LateCancel(s: Sys, id': string, id: string)
    requires GuardedOps(s) && Decided(s, id)
    ensures LateStep(s, s.(ops := CancelOps(s, id')), false, id)
  {
    CancelShape(s, id');
    CancelInFlight(s, id', id);
  }

  lemma LateAppend(s: Sys, op: Op, id: string)
    requires GuardedOps(s) && Decided(s, id) && Guarded(op.kind) && !op.pc.Holding?
    ensures LateStep(s, s.(ops := s.ops + [op]), false, id)
  {
    assert (s.ops + [op])[..|s.ops|] == s.ops;
  }

  lemma LateSetPc(s: Sys, i: nat, pc: Pc, id: string)
    requires GuardedOps(s) && Decided(s, id) && i < |s.ops| && (s.ops[i].id == id ==> !pc.Holding?)
    ensures LateStep(s, SetPc(s, i, pc), InFlightOp(s.ops[i], id), id)
  {
    InFlightUpdate(s.ops, i, s.ops[i].(pc := pc), id);
  }

  lemma LateCall(s: Sys, i: nat, id: string)
    requires Inv(s) && GuardedOps(s) && Decided(s, id) && i < |s.ops|
    requires s.ops[i].pc == Waiting && s.ops[i].kind != Timer
    ensures LateStep(s, Advance(s, i), InFlightOp(s.ops[i], id), id)
  {
    var op := s.ops[i];
    LateCancel(s, op.id, id);
    LateSetPc(s.(ops := CancelOps(s, op.id), cancelFuncs := s.cancelFuncs - {op.id}), i, Ready, id);
  }

  lemma LateAdvance(s: Sys, i: nat, id: string)
    requires Inv(s) && GuardedOps(s) && Decided(s, id) && i < |s.ops|
    ensures LateStep(s, Advance(s, i), InFlightOp(s.ops[i], id), id)
  {
    var op := s.ops[i];
    match op.pc {
      case Waiting =>
        if op.kind != Timer {
          LateCall(s, i, id);
        } else if op.ctx != Active {
          LateSetPc(s, i, if op.ctx == Cancelled then Finished else Ready, id);
        }
      case Ready =>
        LateSetPc(s, i, Advance(s, i).ops[i].pc, id);
      case Holding(inc) =>
        LateSetPc(s, i, if op.kind == Timer then Cleaning else Finished, id);
      case Cleaning =>
        LateSetPc(s, i, Finished, id);
      case Finished =>
    }
  }

  lemma LateStart(s: Sys, id': string, id: string)
    requires GuardedOps(s) && Decided(s, id)
    ensures LateStep(s, Next(s, StartApprovalTimeout(id')), false, id)
  {
    LateCancel(s, id', id);
    LateAppend(s.(ops := CancelOps(s, id')), Op(Timer, id', Waiting, Active), id);
  }

  lemma LateCreate(s: Sys, inc: Incident, id: string)
    requires Inv(s) && GuardedOps(s) && Decided(s, id)
    ensures LateStep(s, Next(s, Create(inc)), false, id)
  {
    CreateIsFresh(s.store, inc);
  }

  lemma LateExpire(s: Sys, i: nat, id: string)
    requires GuardedOps(s) && Decided(s, id) && i < |s.ops|
    ensures LateStep(s, Next(s, Expire(i)), false, id)
  {
    InFlightUpdate(s.ops, i, s.ops[i].(ctx := DeadlineExceeded), id);
  }

  lemma LateSame(s: Sys, id: string)
    requires GuardedOps(s) && Decided(s, id)
    ensures LateStep(s, s, false, id)
  {}

  lemma DecidedNext(s: Sys, e: Event, id: string)
    requires Inv(s) && GuardedOps(s) && GuardedEvent(e) && Decided(s, id)
    ensures LateStep(s, Next(s, e), Writes(s, e, id), id)
  {
    hide Inv, GuardedOps, Decided, LateStep, Advance, CancelOps;
    LateSame(s, id);
    match e {
      case Create(inc) => LateCreate(s, inc, id);
      case Request(kind, id') =>
        if kind != Timer { LateAppend(s, Op(kind, id', Ready, Active), id); }
      case StartApprovalTimeout(id') => LateStart(s, id', id);
      case CancelTimeout(id') => LateUncalled(s, id', id);
      case Expire(i) => if i < |s.ops| { LateExpire(s, i, id); }
      case Step(i) => if i < |s.ops| { LateAdvance(s, i, id); }
    }
  }

  lemma LateUncalled(s: Sys, id': string, id: string)
    requires GuardedOps(s) && Decided(s, id)
    ensures LateStep(s, Next(s, CancelTimeout(id')), false, id)
  {
    LateCancel(s, id', id);
  }

  /** After the first decision, the later writes are bounded by the operations in flight at that moment: each of
      them was already in flight then, and every write uses one up. */
  lemma {:induction false} LateWritesBounded(s: Sys, es: seq<Event>, id: string)
    requires Inv(s) && GuardedOps(s) && GuardedEvents(es) && Decided(s, id)
    ensures GuardedOps(Run(s, es)) && Decided(Run(s, es), id)
    ensures WriteCount(s, es, id) + InFlight(Run(s, es).ops, id) == InFlight(s.ops, id)
    ensures WriteCount(s, es, id) == 0 ==> Run(s, es).store.incidents[id] == s.store.incidents[id]
    ensures NoneJoined(s.ops, Run(s, es).ops, id)
    decreases |es|
  {
    if es == [] {
    } else {
      assert es[0] in es;
      DecidedNext(s, es[0], id);
      InvNext(s, es[0]);
      LateWritesBounded(Next(s, es[0]), es[1..], id);
    }
  }

  lemma {:induction false} GuardedRun(s: Sys, es: seq<Event>)
    requires GuardedOps(s) && GuardedEvents(es)
    ensures GuardedOps(Run(s, es))
    decreases |es|
  {
    if es == [] {
    } else {
      GuardedNext(s, es[0]);
      GuardedRun(Next(s, es[0]), es[1..]);
    }
  }

  lemma GuardedNext(s: Sys, e: Event)
    requires GuardedOps(s) && GuardedEvent(e)
    ensures GuardedOps(Next(s, e))
  {
    match e {
      case StartApprovalTimeout(id) => CancelShape(s, id);
      case CancelTimeout(id) => CancelShape(s, id);
      case _ =>
    }
  }

  /** From the start: once an incident has been decided, in any run of requests and timers, the writes that are
      still to come are exactly those of operations already in flight. */
  lemma ReachableBound(es: seq<Event>, more: seq<Event>, id: string)
    requires GuardedEvents(es) && GuardedEvents(more) && Decided(Run(Init(), es), id)
    ensures var s := Run(Init(), es);
      && WriteCount(s, more, id) + InFlight(Run(s, more).ops, id) == InFlight(s.ops, id)
      && Decided(Run(s, more), id) && NoneJoined(s.ops, Run(s, more).ops, id)
  {
    InvRun(Init(), es);
    GuardedRun(Init(), es);
    LateWritesBounded(Run(Init(), es), more, id);
  }

  /** With nothing in flight a decided incident is final. */
  lemma DecidedIsStable(s: Sys, es: seq<Event>, id: string)
    requires Inv(s) && GuardedOps(s) && GuardedEvents(es) && Decided(s, id)
    requires InFlight(s.ops, id) == 0
    ensures id in Run(s, es).store.incidents && Run(s, es).store.incidents[id] == s.store.incidents[id]
  {
    LateWritesBounded(s, es, id);
  }

  // ---------------------------------------------------------------- when the first decision wins

  /** Every operation in flight on the incident carries the decision already taken. */
  predicate Agreed(s: Sys, id: string)
    requires id in s.store.incidents
  {
    forall i :: 0 <= i < |s.ops| && InFlightOp(s.ops[i], id) ==> Decision(s.ops[i].kind) == s.store.incidents[id].phase
  }

  ghost predicate PhaseFinal(s: Sys, id: string)
    requires id in s.store.incidents
  {
    forall es :: GuardedEvents(es) && id in Run(s, es).store.incidents ==>
                   Run(s, es).store.incidents[id].phase == s.store.incidents[id].phase
  }

  lemma {:induction false} AgreedStays(s: Sys, es: seq<Event>, id: string)
    requires Inv(s) && GuardedOps(s) && GuardedEvents(es) && Decided(s, id) && Agreed(s, id)
    ensures id in Run(s, es).store.incidents && Run(s, es).store.incidents[id].phase == s.store.incidents[id].phase
    decreases |es|
  {
    hide Next, Inv, Agreed;
    if es == [] {
    } else {
      assert es[0] in es;
      DecidedNext(s, es[0], id);
      AgreedNext(s, es[0], id);
      InvNext(s, es[0]);
      AgreedStays(Next(s, es[0]), es[1..], id);
    }
  }

  lemma AgreedNext(s: Sys, e: Event, id: string)
    requires Inv(s) && Decided(s, id) && Agreed(s, id)
    requires LateStep(s, Next(s, e), Writes(s, e, id), id)
    ensures var s' := Next(s, e);
      id in s'.store.incidents && s'.store.incidents[id].phase == s.store.incidents[id].phase && Agreed(s', id)
  {}

  /** The exact condition for "the first decision wins": a decision is final if and only if no operation in
      flight on the incident carries another one. */
  lemma FirstDecisionWinsExactly(s: Sys, id: string)
    requires Inv(s) && GuardedOps(s) && Decided(s, id)
    ensures PhaseFinal(s, id) <==> Agreed(s, id)
  {
    if Agreed(s, id) {
      forall es | GuardedEvents(es) && id in Run(s, es).store.incidents
        ensures Run(s, es).store.incidents[id].phase == s.store.incidents[id].phase
      {
        AgreedStays(s, es, id);
      }
    } else {
      var i :| 0 <= i < |s.ops| && InFlightOp(s.ops[i], id) && Decision(s.ops[i].kind) != s.store.incidents[id].phase;
      var es := [Step(i)];
      assert es[1..] == [] && Run(s, es) == Next(s, Step(i));
      var s' := Run(s, es);
      assert GuardedEvents(es) && id in s'.store.incidents;
      assert s'.store.incidents[id].phase == Decision(s.ops[i].kind);
    }
  }

  /** "The first decision wins" fails: two requests read RequiresApproval, the approval is written and then
      overwritten by the rejection; both requests answer success. */
  lemma FirstDecisionCanLose(inc: Incident)
    requires inc.phase == PhaseRequiresApproval
    ensures var id := IncidentId(1);
            var s := Run(Init(), [Create(inc), Request(ApproveIncident, id), Request(RejectIncident, id),
                                  Step(0), Step(1), Step(0)]);
            && s.store.incidents == map[id := inc.(phase := PhaseExecuting)]
            && Run(s, [Step(1)]).store.incidents == map[id := inc.(phase := PhaseRejected)]
  {
    var id := IncidentId(1);
    var s1 := Next(Init(), Create(inc));
    assert s1.store.incidents == map[id := inc];
    var s2 := Next(s1, Request(ApproveIncident, id));
    assert s2.ops == [Op(ApproveIncident, id, Ready, Active)];
    var s3 := Next(s2, Request(RejectIncident, id));
    assert s3.ops == [Op(ApproveIncident, id, Ready, Active), Op(RejectIncident, id, Ready, Active)];
    var s4 := Next(s3, Step(0));
    var s5 := Next(s4, Step(1));
    assert s5.ops == [Op(ApproveIncident, id, Holding(inc), Active), Op(RejectIncident, id, Holding(inc), Active)];
    var s6 := Next(s5, Step(0));
    assert s6.store.incidents == map[id := inc.(phase := PhaseExecuting)];
    var s7 := Next(s6, Step(1));
    assert s7.store.incidents == map[id := inc.(phase := PhaseRejected)];
    var es := [Create(inc), Request(ApproveIncident, id), Request(RejectIncident, id), Step(0), Step(1), Step(0)];
    RunSix(Init(), es);
    assert Run(Next(s6, Step(1)), []) == s7;
  }

  lemma {:induction false} RunSix(s: Sys, es: seq<Event>)
    requires |es| == 6
    ensures Run(s, es) == Next(Next(Next(Next(Next(Next(s, es[0]), es[1]), es[2]), es[3]), es[4]), es[5])
  {
    RunAppend(s, es[..3], es[3..]);
    assert es == es[..3] + es[3..];
    RunThree(s, es[..3]);
    RunThree(Run(s, es[..3]), es[3..]);
  }

  lemma RunThree(s: Sys, es: seq<Event>)
    requires |es| == 3
    ensures Run(s, es) == Next(Next(Next(s, es[0]), es[1]), es[2])
  {
    var s1, r1 := Next(s, es[0]), es[1..];
    assert r1[0] == es[1] && r1[1..] == [es[2]];
    assert Run(s1, r1) == Run(Next(s1, es[1]), [es[2]]);
    assert Run(Next(Next(s1, es[1]), es[2]), []) == Next(Next(s1, es[1]), es[2]);
  }

  /** The ApprovalHandler's own methods are outside the bound: with nothing in flight, a decided incident
      still changes, because Approve and Reject check no phase. */
  lemma UnguardedCallOverrides(s: Sys, kind: Kind, id: string)
    requires Inv(s) && Decided(s, id) && !Guarded(kind)
    ensures var s' := Run(s, [Request(kind, id), Step(|s.ops|), Step(|s.ops|), Step(|s.ops|)]);
            id in s'.store.incidents && s'.store.incidents[id] == s.store.incidents[id].(phase := Decision(kind))
  {
    var n := |s.ops|;
    CallGetsReady(s, kind, id);
    ReadyCallWrites(Next(Next(s, Request(kind, id)), Step(n)), n, id);
    RunFour(s, [Request(kind, id), Step(n), Step(n), Step(n)]);
  }

  lemma CallGetsReady(s: Sys, kind: Kind, id: string)
    requires !Guarded(kind)
    ensures var n, s' := |s.ops|, Next(Next(s, Request(kind, id)), Step(|s.ops|));
      n < |s'.ops| && s'.ops[n].kind == kind && s'.ops[n].id == id && s'.ops[n].pc == Ready && s'.store == s.store
  {
    var s1 := Next(s, Request(kind, id));
    assert s1.ops[|s.ops|] == Op(kind, id, Waiting, Active);
    CancelShape(s1, id);
  }

  lemma ReadyCallWrites(s: Sys, n: nat, id: string)
    requires n < |s.ops| && !Guarded(s.ops[n].kind) && s.ops[n].id == id && s.ops[n].pc == Ready
    requires id in s.store.incidents
    ensures var s' := Next(Next(s, Step(n)), Step(n));
      && id in s'.store.incidents
      && s'.store.incidents[id] == s.store.incidents[id].(phase := Decision(s.ops[n].kind))
  {}

  lemma RunFour(s: Sys, es: seq<Event>)
    requires |es| == 4
    ensures Run(s, es) == Next(Next(Next(Next(s, es[0]), es[1]), es[2]), es[3])
  {
    var t := es[1..];
    RunThree(Next(s, es[0]), t);
    assert t[0] == es[1] && t[1] == es[2] && t[2] == es[3];
  }

  // ---------------------------------------------------------------- timers

  /** A timer cancelled while it waits never reads or writes the store. */
  predicate Inert(op: Op) { op.kind == Timer && op.ctx == Cancelled && op.pc in {Waiting, Finished} }

  lemma InertNext(s: Sys, e: Event, i: nat)
    requires i < |s.ops| && Inert(s.ops[i])
    ensures i < |Next(s, e).ops| && Inert(Next(s, e).ops[i])
    ensures e == Step(i) ==> Next(s, e).store == s.store
  {
    hide CancelOps;
    match e {
      case StartApprovalTimeout(id) => CancelShape(s, id);
      case CancelTimeout(id) => CancelShape(s, id);
      case Step(j) => if j < |s.ops| { CancelShape(s, s.ops[j].id); }
      case _ =>
    }
  }

  lemma {:induction false} CancelledTimerIsInert(s: Sys, es: seq<Event>, i: nat)
    requires i < |s.ops| && Inert(s.ops[i])
    ensures i < |Run(s, es).ops| && Inert(Run(s, es).ops[i])
    ensures Next(Run(s, es), Step(i)).store == Run(s, es).store
    decreases |es|
  {
    hide Next;
    if es != [] {
      InertNext(s, es[0], i);
      CancelledTimerIsInert(Next(s, es[0]), es[1..], i);
    } else {
      InertNext(s, Step(i), i);
    }
  }

  predicate Live(op: Op) { op.kind == Timer && op.ctx == Active && op.pc == Waiting }

  /** Every timer that can still fire can be found, and so cancelled, under its incident. */
  predicate Registered(s: Sys) {
    forall i :: 0 <= i < |s.ops| && Live(s.ops[i]) ==> s.ops[i].id in s.cancelFuncs && s.cancelFuncs[s.ops[i].id] == i
  }

  /** A timer's final clean-up that removes the entry of a newer, live timer. */
  predicate StaleDelete(s: Sys, e: Event) {
    && e.Step? && e.op < |s.ops| && s.ops[e.op].kind == Timer && s.ops[e.op].pc == Cleaning
    && s.ops[e.op].id in s.cancelFuncs
    && s.cancelFuncs[s.ops[e.op].id] < |s.ops| && Live(s.ops[s.cancelFuncs[s.ops[e.op].id]])
  }

  // ---------------------------------------------------------------- what a cancellation does

  /** The incident has no registered timer, and no timer of it can still fire. */
  predicate Stopped(s: Sys, id: string) {
    id !in s.cancelFuncs && forall i | 0 <= i < |s.ops| && s.ops[i].id == id :: !Live(s.ops[i])
  }

  /** Nothing of other incidents has changed, and nothing in the store. */
  predicate OthersUntouched(s: Sys, s': Sys, id: string) {
    && s'.store == s.store && |s'.ops| == |s.ops|
    && (forall i | 0 <= i < |s.ops| && s.ops[i].id != id :: s'.ops[i] == s.ops[i])
    && s'.cancelFuncs - {id} == s.cancelFuncs - {id}
  }

  /** CancelTimeout stops the incident's timers and touches nothing else. */
  lemma CancelStops(s: Sys, id: string)
    requires Inv(s) && Registered(s)
    ensures Stopped(Next(s, CancelTimeout(id)), id) && OthersUntouched(s, Next(s, CancelTimeout(id)), id)
  {}

  /** So does the first step of a direct Approve or Reject, which then goes on to read the incident. */
  lemma CallStops(s: Sys, i: nat)
    requires Inv(s) && Registered(s) && i < |s.ops| && s.ops[i].pc == Waiting
    requires s.ops[i].kind == Approve || s.ops[i].kind == Reject
    ensures var s' := Next(s, Step(i));
      Stopped(s', s.ops[i].id) && OthersUntouched(s, s', s.ops[i].id) && s'.ops[i] == s.ops[i].(pc := Ready)
  {
    hide CancelOps;
    var id := s.ops[i].id;
    CancelStops(s, id);
    CancelShape(s, id);
    CallCancels(s, i);
  }

  lemma CallCancels(s: Sys, i: nat)
    requires Inv(s) && i < |s.ops| && s.ops[i].pc == Waiting && s.ops[i].kind != Timer
    ensures CancelOps(s, s.ops[i].id)[i] == s.ops[i]
    ensures Next(s, Step(i)) == SetPc(Next(s, CancelTimeout(s.ops[i].id)), i, Ready)
  {
    CancelShape(s, s.ops[i].id);
  }

  /** An event that cancels the timers of an incident. */
  predicate Cancels(s: Sys, e: Event, id: string) {
    || e == CancelTimeout(id)
    || (&& e.Step? && e.op < |s.ops| && s.ops[e.op].id == id && s.ops[e.op].pc == Waiting
        && (s.ops[e.op].kind == Approve || s.ops[e.op].kind == Reject))
  }

  lemma CancelsLive(s: Sys, e: Event, id: string, j: nat)
    requires Inv(s) && Registered(s) && Cancels(s, e, id) && j < |s.ops| && Live(s.ops[j]) && s.ops[j].id == id
    ensures j < |Next(s, e).ops| && Inert(Next(s, e).ops[j])
  {
    if e.Step? {
      CallCancels(s, e.op);
    }
  }

  /** A timer that could have fired when its incident was cancelled never reads or writes the store again, whatever
      runs after the cancellation. */
  lemma CancelledForGood(s: Sys, e: Event, es: seq<Event>, id: string, j: nat)
    requires Inv(s) && Registered(s) && Cancels(s, e, id) && j < |s.ops| && Live(s.ops[j]) && s.ops[j].id == id
    ensures var t := Run(Next(s, e), es);
      && j < |t.ops| && (t.ops[j].pc == Waiting || t.ops[j].pc == Finished)
      && Next(t, Step(j)).store == t.store && !Next(t, Step(j)).ops[j].pc.Holding?
  {
    hide Next, Inv, Registered;
    CancelsLive(s, e, id, j);
    CancelledTimerIsInert(Next(s, e), es, j);
    InertNext(Run(Next(s, e), es), Step(j), j);
  }

  /** Starting a timer stops the incident's earlier ones and registers the new one. */
  lemma StartReplaces(s: Sys, id: string)
    requires Inv(s) && Registered(s)
    ensures var s' := Next(s, StartApprovalTimeout(id));
      && |s'.ops| == |s.ops| + 1 && s'.ops[|s.ops|] == Op(Timer, id, Waiting, Active)
      && id in s'.cancelFuncs && s'.cancelFuncs[id] == |s.ops|
      && forall i | 0 <= i < |s.ops| && s.ops[i].id == id :: !Live(s'.ops[i])
  {}

  // ---------------------------------------------------------------- one operation on its own

  /** What each kind of operation does to the store when its read and its write are not interrupted. */
  lemma ReadThenWrite(s: Sys, i: nat)
    requires i < |s.ops| && s.ops[i].pc == Ready
    ensures var op, before := s.ops[i], s.store.incidents;
      var after := Next(Next(s, Step(i)), Step(i)).store.incidents;
      if op.id !in before then after == before
      else
        var inc := before[op.id];
        match op.kind
        case Approve => after == before[op.id := inc.(phase := PhaseExecuting)]
        case Reject => after == before[op.id := inc.(phase := PhaseRejected)]
        case ApproveIncident =>
          after == if inc.phase == PhaseRequiresApproval then before[op.id := inc.(phase := PhaseExecuting)] else before
        case RejectIncident =>
          after == if inc.phase == PhaseRequiresApproval then before[op.id := inc.(phase := PhaseRejected)] else before
        case Timer =>
          after == if inc.phase == PhaseRequiresApproval then before[op.id := inc.(phase := PhaseRejected)] else before
  {}

  /** A request goes straight to its read; a direct call cancels first. */
  lemma RequestBegins(s: Sys, kind: Kind, id: string)
    ensures var s' := Next(s, Request(kind, id));
      && s'.store == s.store && s'.cancelFuncs == s.cancelFuncs
      && (kind == ApproveIncident || kind == RejectIncident ==> s'.ops == s.ops + [Op(kind, id, Ready, Active)])
      && (kind == Approve || kind == Reject ==> s'.ops == s.ops + [Op(kind, id, Waiting, Active)])
  {}

  /** A timer reads only when its deadline has passed; when it has decided it unregisters itself. */
  lemma TimerMoves(s: Sys, i: nat)
    requires i < |s.ops| && s.ops[i].kind == Timer
    ensures var op, s' := s.ops[i], Next(s, Step(i));
      && (op.pc == Waiting ==>
            s'.store == s.store && s'.cancelFuncs == s.cancelFuncs
            && s'.ops[i].pc == (match op.ctx
                                case Active => Waiting
                                case Cancelled => Finished
                                case DeadlineExceeded => Ready))
      && (op.pc == Cleaning ==> s'.store == s.store && op.id !in s'.cancelFuncs && s'.ops[i].pc == Finished)
      && (op.pc.Holding? ==> s'.ops[i].pc == Cleaning)
  {}

  lemma RegisteredCancels(s: Sys, id: string)
    requires Inv(s) && Registered(s)
    ensures Registered(s.(ops := CancelOps(s, id), cancelFuncs := s.cancelFuncs - {id}))
  {}

  lemma RegisteredStarts(s: Sys, id: string)
    requires Inv(s) && Registered(s)
    ensures Registered(Next(s, StartApprovalTimeout(id)))
  {}

  lemma RegisteredAdvances(s: Sys, i: nat)
    requires Inv(s) && Registered(s) && i < |s.ops| && s.ops[i].pc != Cleaning
    ensures Registered(Advance(s, i))
  {
    hide CancelOps, Inv;
    var op := s.ops[i];
    if op.pc == Waiting && op.kind != Timer {
      RegisteredCancels(s, op.id);
      CancelShape(s, op.id);
    }
  }

  lemma RegisteredUncleaned(s: Sys, e: Event)
    requires Inv(s) && Registered(s) && !(e.Step? && e.op < |s.ops| && s.ops[e.op].pc == Cleaning)
    ensures Registered(Next(s, e))
  {
    hide CancelOps, Advance, Inv;
    match e {
      case StartApprovalTimeout(id) => RegisteredStarts(s, id);
      case CancelTimeout(id) => RegisteredCancels(s, id);
      case Step(i) => if i < |s.ops| { RegisteredAdvances(s, i); }
      case _ =>
    }
  }

  lemma RegisteredCleaned(s: Sys, i: nat)
    requires Inv(s) && Registered(s) && i < |s.ops| && s.ops[i].pc == Cleaning
    ensures Registered(Next(s, Step(i))) <==> !StaleDelete(s, Step(i))
  {
    if StaleDelete(s, Step(i)) {
      var id := s.ops[i].id;
      var j := s.cancelFuncs[id];
      assert Live(Next(s, Step(i)).ops[j]) && id !in Next(s, Step(i)).cancelFuncs;
    }
  }

  lemma RegisteredNext(s: Sys, e: Event)
    requires Inv(s) && Registered(s)
    ensures Registered(Next(s, e)) <==> !StaleDelete(s, e)
  {
    hide Next, Inv, Registered;
    if e.Step? && e.op < |s.ops| && s.ops[e.op].pc == Cleaning {
      RegisteredCleaned(s, e.op);
    } else {
      RegisteredUncleaned(s, e);
    }
  }

  /** A timer that has fired and not cleaned up. */
  lemma TimerFires(inc: Incident)
    requires inc.phase == PhaseRequiresApproval
    ensures var id := IncidentId(1);
      var s := Run(Init(), [Create(inc), StartApprovalTimeout(id), Expire(0), Step(0), Step(0), Step(0)]);
      s.ops == [Op(Timer, id, Cleaning, DeadlineExceeded)] && s.cancelFuncs == map[id := 0]
  {
    var id := IncidentId(1);
    var s1 := Next(Init(), Create(inc));
    assert s1.store.incidents == map[id := inc];
    var s2 := Next(s1, StartApprovalTimeout(id));
    assert s2.ops == [Op(Timer, id, Waiting, Active)] && s2.cancelFuncs == map[id := 0];
    var s3 := Next(s2, Expire(0));
    assert s3.ops == [Op(Timer, id, Waiting, DeadlineExceeded)];
    var s4 := Next(s3, Step(0));
    var s5 := Next(s4, Step(0));
    assert s5.ops == [Op(Timer, id, Holding(inc), DeadlineExceeded)];
    var s6 := Next(s5, Step(0));
    assert s6.ops == [Op(Timer, id, Cleaning, DeadlineExceeded)] && s6.cancelFuncs == map[id := 0];
    RunSix(Init(), [Create(inc), StartApprovalTimeout(id), Expire(0), Step(0), Step(0), Step(0)]);
  }

  lemma CleansUpLate(s: Sys, id: string)
    requires s.ops == [Op(Timer, id, Cleaning, DeadlineExceeded)] && s.cancelFuncs == map[id := 0]
    ensures var s' := Run(s, [StartApprovalTimeout(id), Step(0)]);
      |s'.ops| == 2 && Live(s'.ops[1]) && s'.ops[1].id == id && id !in s'.cancelFuncs
  {
    var s1 := Next(s, StartApprovalTimeout(id));
    assert s1.ops == [Op(Timer, id, Cleaning, DeadlineExceeded), Op(Timer, id, Waiting, Active)];
    var s2 := Next(s1, Step(0));
    var es := [StartApprovalTimeout(id), Step(0)];
    assert Run(s, es) == Run(s1, [Step(0)]) && es[1..] == [Step(0)];
    assert Run(s1, [Step(0)]) == Run(s2, []);
  }

  /** "Every live timer is registered" fails: a timer that has fired cleans up only after a new timer has started
      for the same incident, and removes the new one's entry. */
  lemma LiveTimerCanBeLost(inc: Incident)
    requires inc.phase == PhaseRequiresApproval
    ensures var id := IncidentId(1);
      var s := Run(Init(), [Create(inc), StartApprovalTimeout(id), Expire(0), Step(0), Step(0), Step(0)]);
      var s' := Run(s, [StartApprovalTimeout(id), Step(0)]);
      |s'.ops| == 2 && Live(s'.ops[1]) && s'.ops[1].id == id && id !in s'.cancelFuncs
  {
    hide Run, Next, IncidentId;
    TimerFires(inc);
    var id := IncidentId(1);
    CleansUpLate(Run(Init(), [Create(inc), StartApprovalTimeout(id), Expire(0), Step(0), Step(0), Step(0)]), id);
  }

  /** "Every live timer is registered" holds throughout a run if and only if no clean-up in it is stale. */
  lemma {:induction false} RegisteredExactly(s: Sys, es: seq<Event>)
    requires Inv(s) && Registered(s)
    ensures (forall k :: 0 <= k <= |es| ==> Registered(Run(s, es[..k])))
            <==> (forall k :: 0 <= k < |es| ==> !StaleDelete(Run(s, es[..k]), es[k]))
    decreases |es|
  {
    assert Run(s, es[..0]) == s;
    if es == [] {
    } else {
      var s1, rest := Next(s, es[0]), es[1..];
      RegisteredNext(s, es[0]);
      InvNext(s, es[0]);
      assert forall k :: 0 <= k <= |rest| ==> es[..k + 1][0] == es[0] && es[..k + 1][1..] == rest[..k];
      assert forall k :: 0 <= k <= |rest| ==> Run(s, es[..k + 1]) == Run(s1, rest[..k]);
      if Registered(s1) {
        RegisteredExactly(s1, rest);
        ShiftRuns(s, es);
      } else {
        assert Run(s, es[..1]) == Run(s1, rest[..0]) == s1;
        assert StaleDelete(Run(s, es[..0]), es[0]);
      }
    }
  }

  lemma ShiftRuns(s: Sys, es: seq<Event>)
    requires es != [] && Registered(s) && Registered(Next(s, es[0])) && !StaleDelete(s, es[0])
    ensures (forall k :: 0 <= k <= |es| ==> Registered(Run(s, es[..k])))
            <==> (forall k :: 0 <= k <= |es| - 1 ==> Registered(Run(Next(s, es[0]), es[1..][..k])))
    ensures (forall k :: 0 <= k < |es| ==> !StaleDelete(Run(s, es[..k]), es[k]))
            <==> (forall k :: 0 <= k < |es| - 1 ==> !StaleDelete(Run(Next(s, es[0]), es[1..][..k]), es[1..][k]))
  {
    var rest := es[1..];
    forall k | 1 <= k <= |es| ensures Run(s, es[..k]) == Run(Next(s, es[0]), rest[..k - 1]) {
      assert es[..k][0] == es[0] && es[..k][1..] == rest[..k - 1];
    }
    assert Run(s, es[..0]) == s;
    assert forall k :: 0 <= k < |rest| ==> rest[k] == es[k + 1];
    if forall k :: 0 <= k <= |es| ==> Registered(Run(s, es[..k])) {
      forall k | 0 <= k <= |rest| ensures Registered(Run(Next(s, es[0]), rest[..k])) {
        assert Registered(Run(s, es[..k + 1]));
      }
    }
    if forall k :: 0 <= k < |es| ==> !StaleDelete(Run(s, es[..k]), es[k]) {
      forall k | 0 <= k < |rest| ensures !StaleDelete(Run(Next(s, es[0]), rest[..k]), rest[k]) {
        assert !StaleDelete(Run(s, es[..k + 1]), es[k + 1]);
      }
    }
  }
}
