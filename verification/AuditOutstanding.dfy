/** When the audit log is safe while calls overlap (services/backend/internal/handler/full_handler.go): an append is
    outstanding from a call's write to its record, and the appends that are outstanding can come in any order. */
module AuditOutstanding {
  import opened Text
  import opened Types
  import opened IncidentStore
  import opened AuditLog
  import opened AuditProtocol
  import Approval = ApprovalProtocol

  /** Call k has written to the incident and not yet appended its record. */
  predicate Pending(s: System, k: nat, id: string) {
    k < |s.calls| && s.calls[k].stage.Wrote? && s.calls[k].call.id == id
  }

  predicate Outstanding(s: System, id: string) { exists k | 0 <= k < |s.calls| :: Pending(s, k, id) }

  /** Every outstanding append records the stored decision, and if none is outstanding the log agrees. */
  predicate OnCourse(s: System, id: string)
    requires id in s.sys.store.incidents
  {
    && (forall k | 0 <= k < |s.calls| && Pending(s, k, id) ::
          PhaseOf(s.calls[k].call) == s.sys.store.incidents[id].phase)
    && (!Outstanding(s, id) ==> Agrees(s, id))
  }

  /** The operation belongs to a call of the audited handler. */
  predicate Audited(s: System, op: nat) {
    exists k | 0 <= k < |s.calls| :: s.calls[k].op == op && s.calls[k].stage.Running?
  }

  predicate WritesTo(s: System, e: Approval.Event, id: string) {
    Writing(s.sys, e) && s.sys.ops[e.op].id == id
  }

  /** A write of another phase than the stored one, by an operation that will append no record, or while the append
      of an earlier decision is outstanding. */
  predicate Disturbs(s: System, e: Event, id: string)
    requires id in s.sys.store.incidents
  {
    && e.Base? && WritesTo(s, e.event, id)
    && Approval.Decision(s.sys.ops[e.event.op].kind) != s.sys.store.incidents[id].phase
    && (!Audited(s, e.event.op) || Outstanding(s, id))
  }

  // ---------------------------------------------------------------- one step

  /** A write leaves pending what was pending, and the calls of its own operation. */
  lemma PendingAfterWrite(s: System, e: Approval.Event, id: string, k: nat)
    requires Inv(s) && WritesTo(s, e, id) && k < |s.calls|
    ensures Pending(BaseNext(s, e), k, id)
            <==> Pending(s, k, id) || (s.calls[k].op == e.op && s.calls[k].stage.Running?)
    ensures BaseNext(s, e).calls[k].call == s.calls[k].call
    ensures s.calls[k].op == e.op ==> PhaseOf(s.calls[k].call) == Approval.Decision(s.sys.ops[e.op].kind)
  {
    hide Approval.Next;
    assert CallOk(s, k);
  }

  lemma PhaseAfterWrite(s: System, e: Approval.Event, id: string)
    requires Inv(s) && WritesTo(s, e, id)
    ensures var s' := BaseNext(s, e);
      && id in s.sys.store.incidents && id in s'.sys.store.incidents && id in s.created
      && s'.sys.store.incidents[id].phase == Approval.Decision(s.sys.ops[e.op].kind)
      && s'.records == s.records && s'.created == s.created
  {
    WritesStored(s, e);
    Known(s, id);
    hide Approval.Next, Inv;
    StoreKept(s.sys, e);
  }

  lemma AuditedWrite(s: System, e: Approval.Event, id: string)
    requires Inv(s) && WritesTo(s, e, id) && id in s.sys.store.incidents && OnCourse(s, id) && Audited(s, e.op)
    ensures id in BaseNext(s, e).sys.store.incidents
    ensures OnCourse(BaseNext(s, e), id) <==> !Disturbs(s, Base(e), id)
  {
    hide Inv, Approval.Next, Pending, Agrees;
    var s' := BaseNext(s, e);
    PhaseAfterWrite(s, e, id);
    forall k | 0 <= k < |s.calls|
      ensures Pending(s', k, id) <==> Pending(s, k, id) || (s.calls[k].op == e.op && s.calls[k].stage.Running?)
      ensures s'.calls[k].call == s.calls[k].call
      ensures s.calls[k].op == e.op ==> PhaseOf(s.calls[k].call) == Approval.Decision(s.sys.ops[e.op].kind)
    {
      PendingAfterWrite(s, e, id, k);
    }
  }

  lemma OtherWrite(s: System, e: Approval.Event, id: string)
    requires Inv(s) && WritesTo(s, e, id) && id in s.sys.store.incidents && OnCourse(s, id) && !Audited(s, e.op)
    ensures id in BaseNext(s, e).sys.store.incidents
    ensures OnCourse(BaseNext(s, e), id) <==> !Disturbs(s, Base(e), id)
  {
    hide Inv, Approval.Next, Pending;
    var s' := BaseNext(s, e);
    PhaseAfterWrite(s, e, id);
    forall k | 0 <= k < |s.calls|
      ensures Pending(s', k, id) <==> Pending(s, k, id)
      ensures s'.calls[k].call == s.calls[k].call
    {
      PendingAfterWrite(s, e, id, k);
    }
  }

  /** Nothing of this incident: its stored phase, its records and what is pending on it stay. */
  predicate SameFor(s: System, s': System, id: string)
    requires id in s.sys.store.incidents
  {
    && |s'.calls| >= |s.calls|
    && (forall k | 0 <= k < |s.calls| :: s'.calls[k].call == s.calls[k].call)
    && (forall k | 0 <= k < |s'.calls| :: Pending(s', k, id) <==> Pending(s, k, id))
    && id in s'.sys.store.incidents && s'.sys.store.incidents[id].phase == s.sys.store.incidents[id].phase
    && (Agrees(s', id) <==> Agrees(s, id))
  }

  lemma SameOnCourse(s: System, s': System, id: string)
    requires id in s.sys.store.incidents && SameFor(s, s', id)
    ensures id in s'.sys.store.incidents && (OnCourse(s', id) <==> OnCourse(s, id))
  {
    hide Agrees;
    assert forall k | 0 <= k < |s'.calls| && Pending(s', k, id) :: Pending(s, k, id);
  }

  lemma PendingElsewhere(s: System, e: Approval.Event, id: string, k: nat)
    requires Inv(s) && !WritesTo(s, e, id) && k < |s.calls|
    ensures Pending(BaseNext(s, e), k, id) <==> Pending(s, k, id)
    ensures BaseNext(s, e).calls[k].call == s.calls[k].call
  {
    hide Approval.Next;
    assert CallOk(s, k);
  }

  lemma CreatedKept(s: System, e: Approval.Event, id: string)
    requires Inv(s) && id in s.sys.store.incidents
    ensures id in s.created && id in BaseNext(s, e).created && BaseNext(s, e).created[id] == s.created[id]
  {
    hide Approval.Next, Inv;
    Known(s, id);
  }

  lemma ElsewhereSame(s: System, e: Approval.Event, id: string)
    requires Inv(s) && id in s.sys.store.incidents && !WritesTo(s, e, id)
    ensures SameFor(s, BaseNext(s, e), id)
  {
    hide Approval.Next, Pending, Inv;
    CreatedKept(s, e, id);
    BaseDeparts(s, e, id);
    forall k | 0 <= k < |s.calls|
      ensures Pending(BaseNext(s, e), k, id) <==> Pending(s, k, id)
      ensures BaseNext(s, e).calls[k].call == s.calls[k].call
    {
      PendingElsewhere(s, e, id, k);
    }
  }

  lemma StartSame(s: System, c: Call, id: string)
    requires Inv(s) && id in s.sys.store.incidents
    ensures SameFor(s, StartNext(s, c), id)
  {
    hide Inv;
  }

  lemma AppendSame(s: System, k: nat, now: int, id: string)
    requires Inv(s) && id in s.sys.store.incidents && k < |s.calls| && s.calls[k].stage.Wrote?
        && s.calls[k].call.id != id
    ensures SameFor(s, AppendNext(s, k, now), id)
  {
    Known(s, id);
    AppendReplays(s, k, now, id);
    hide Inv, Agrees, RecordOf;
  }

  /** The append of the stored decision makes the log agree, whatever it was before. */
  lemma AppendOnCourse(s: System, k: nat, now: int, id: string)
    requires Inv(s) && id in s.sys.store.incidents && OnCourse(s, id) && k < |s.calls| && Pending(s, k, id)
    ensures id in AppendNext(s, k, now).sys.store.incidents && OnCourse(AppendNext(s, k, now), id)
  {
    Known(s, id);
    AppendReplays(s, k, now, id);
    hide Inv, RecordOf, Agrees;
    forall j | 0 <= j < |s.calls| && Pending(AppendNext(s, k, now), j, id) ensures Pending(s, j, id) {}
  }

  /** A step keeps the log on course for an incident if and only if it does not disturb it. */
  lemma OnCourseNext(s: System, e: Event, id: string)
    requires Inv(s) && id in s.sys.store.incidents && OnCourse(s, id)
    ensures id in Next(s, e).sys.store.incidents
    ensures OnCourse(Next(s, e), id) <==> !Disturbs(s, e, id)
  {
    hide Inv, BaseNext, StartNext, AppendNext, OnCourse, SameFor, Audited;
    match e {
      case Base(b) =>
        if !WritesTo(s, b, id) {
          ElsewhereSame(s, b, id);
          SameOnCourse(s, BaseNext(s, b), id);
        } else if Audited(s, b.op) {
          AuditedWrite(s, b, id);
        } else {
          OtherWrite(s, b, id);
        }
      case Start(c) =>
        StartSame(s, c, id);
        SameOnCourse(s, StartNext(s, c), id);
      case AppendRecord(k, now) =>
        if k < |s.calls| && s.calls[k].stage.Wrote? {
          if s.calls[k].call.id == id {
            AppendOnCourse(s, k, now, id);
          } else {
            AppendSame(s, k, now, id);
            SameOnCourse(s, AppendNext(s, k, now), id);
          }
        }
    }
  }

  // ---------------------------------------------------------------- whole runs

  lemma {:induction false} NoRecordsYet(records: seq<Record>, id: string)
    requires forall r <- records :: r.incidentId != id
    ensures Select(records, id, None) == []
  {
    if records == [] {
    } else {
      NoRecordsYet(records[..|records| - 1], id);
    }
  }

  /** Nothing is pending on or recorded of an incident that is not stored. */
  lemma UnknownUntouched(s: System, id: string)
    requires Inv(s) && id !in s.created
    ensures !Outstanding(s, id) && Trail(s, id) == []
  {
    forall k | 0 <= k < |s.calls| ensures !Pending(s, k, id) {
      assert CallOk(s, k);
      if s.calls[k].stage.Wrote? { assert s.writes[s.calls[k].stage.write] in s.writes; }
    }
    forall r | r in s.records ensures r.incidentId != id {
      var j :| 0 <= j < |s.records| && s.records[j] == r;
      assert RecordOk(s, j) && CallOk(s, s.owner[j]);
      assert s.writes[s.calls[s.owner[j]].stage.write] in s.writes;
    }
    NoRecordsYet(s.records, id);
  }

  /** An incident is on course when it is created. */
  lemma NewOnCourse(s: System, e: Event, id: string)
    requires Inv(s) && id !in s.sys.store.incidents && id in Next(s, e).sys.store.incidents
    ensures OnCourse(Next(s, e), id)
  {
    NewIsCreate(s, e, id);
    UnknownUntouched(s, id);
    NewAgrees(s, e.event, id);
    hide BaseNext, Pending, Agrees;
    forall k | 0 <= k < |s.calls| ensures !Pending(BaseNext(s, e.event), k, id) {
      assert !Pending(s, k, id);
      PendingElsewhere(s, e.event, id, k);
    }
    SameCalls(s, e.event);
  }

  lemma SameCalls(s: System, e: Approval.Event)
    ensures |BaseNext(s, e).calls| == |s.calls|
  {}

  lemma NewAgrees(s: System, e: Approval.Event, id: string)
    requires Inv(s) && e.Create? && id == IncidentId(s.sys.store.nextID + 1) && Trail(s, id) == []
    ensures Agrees(BaseNext(s, e), id)
  {
    hide Inv, LastWrite;
    StoreKept(s.sys, e);
  }

  lemma NewIsCreate(s: System, e: Event, id: string)
    requires Inv(s) && id !in s.sys.store.incidents && id in Next(s, e).sys.store.incidents
    ensures e.Base? && e.event.Create? && id == IncidentId(s.sys.store.nextID + 1)
  {
    hide Approval.Next, Inv;
    match e {
      case Base(b) =>
        StoreKept(s.sys, b);
        if Writing(s.sys, b) { WritesStored(s, b); }
      case Start(c) => StoreKept(s.sys, Approval.Request(KindOf(c), c.id));
      case AppendRecord(k, now) =>
    }
  }

  predicate StoredOnCourse(s: System, id: string) { id in s.sys.store.incidents ==> OnCourse(s, id) }

  /** At no moment of the run is the incident off course. */
  predicate AlwaysOnCourse(s: System, es: seq<Event>, id: string)
    decreases |es|
  {
    StoredOnCourse(s, id) && (es != [] ==> AlwaysOnCourse(Next(s, es[0]), es[1..], id))
  }

  predicate NeverDisturbed(s: System, es: seq<Event>, id: string)
    decreases |es|
  {
    es != [] ==>
      && (id in s.sys.store.incidents ==> !Disturbs(s, es[0], id))
      && NeverDisturbed(Next(s, es[0]), es[1..], id)
  }

  /** Whatever runs, on this incident and on others: the log stays on course throughout a run if and only if no step
      of the run disturbs it. */
  lemma {:induction false} OnCourseExactly(s: System, es: seq<Event>, id: string)
    requires Inv(s) && StoredOnCourse(s, id)
    ensures AlwaysOnCourse(s, es, id) <==> NeverDisturbed(s, es, id)
    decreases |es|
  {
    hide Inv, Next, Disturbs, OnCourse;
    if es == [] {
    } else {
      InvNext(s, es[0]);
      if id in s.sys.store.incidents {
        OnCourseNext(s, es[0], id);
      } else if id in Next(s, es[0]).sys.store.incidents {
        NewOnCourse(s, es[0], id);
      }
      if StoredOnCourse(Next(s, es[0]), id) { OnCourseExactly(Next(s, es[0]), es[1..], id); }
    }
  }

  lemma {:induction false} OnCourseWithin(s: System, es: seq<Event>, more: seq<Event>, id: string)
    requires AlwaysOnCourse(s, es + more, id)
    ensures StoredOnCourse(Run(s, es), id)
    decreases |es|
  {
    hide StoredOnCourse, Next;
    if es == [] {
    } else {
      assert (es + more)[1..] == es[1..] + more;
      OnCourseWithin(Next(s, es[0]), es[1..], more, id);
    }
  }

  /** From the start, in every run that does not disturb an incident: at every moment at which no append on it is
      outstanding, its log replays to its stored phase. */
  lemma AgreesWhenSettled(es: seq<Event>, more: seq<Event>, id: string)
    requires NeverDisturbed(Init(), es + more, id)
    requires id in Run(Init(), es).created && !Outstanding(Run(Init(), es), id)
    ensures Agrees(Run(Init(), es), id)
  {
    hide Run, Next, NeverDisturbed, AlwaysOnCourse;
    OnCourseExactly(Init(), es + more, id);
    OnCourseWithin(Init(), es, more, id);
    InvRun(Init(), es);
  }

  // ---------------------------------------------------------------- what being on course means

  predicate Appends(es: seq<Event>) { forall e <- es :: e.AppendRecord? }

  /** In whatever order the outstanding appends come, the log agrees once none is left. */
  ghost predicate EndsAgreeing(s: System, id: string) {
    forall es | Appends(es) && !Outstanding(Run(s, es), id) :: Agrees(Run(s, es), id)
  }

  lemma {:induction false} AppendsStayOnCourse(s: System, es: seq<Event>, id: string)
    requires Inv(s) && id in s.sys.store.incidents && OnCourse(s, id) && Appends(es)
    ensures id in Run(s, es).sys.store.incidents && OnCourse(Run(s, es), id)
    decreases |es|
  {
    hide Inv, OnCourse, Next;
    if es == [] {
    } else {
      assert es[0] in es;
      InvNext(s, es[0]);
      OnCourseNext(s, es[0], id);
      AppendsStayOnCourse(Next(s, es[0]), es[1..], id);
    }
  }

  lemma {:induction false} RunAppend(s: System, a: seq<Event>, b: seq<Event>)
    ensures Run(s, a + b) == Run(Run(s, a), b)
    decreases |a|
  {
    if a == [] {
      assert a + b == b;
    } else {
      assert (a + b)[1..] == a[1..] + b;
      RunAppend(Next(s, a[0]), a[1..], b);
    }
  }

  lemma RunLast(s: System, es: seq<Event>, e: Event)
    ensures Run(s, es + [e]) == Next(Run(s, es), e)
  {
    RunAppend(s, es, [e]);
    assert Run(Next(Run(s, es), e), []) == Next(Run(s, es), e);
  }

  /** An append for each of the first n calls except k. */
  function Drain(n: nat, k: nat): (es: seq<Event>)
    ensures Appends(es)
  {
    if n == 0 then [] else Drain(n - 1, k) + if n - 1 == k then [] else [AppendRecord(n - 1, 0)]
  }

  lemma {:induction false} DrainRun(s: System, n: nat, k: nat)
    requires n <= |s.calls| && k < |s.calls|
    ensures var s' := Run(s, Drain(n, k));
      && s'.sys == s.sys && s'.created == s.created && |s'.calls| == |s.calls| && s'.calls[k] == s.calls[k]
      && forall j | 0 <= j < n && j != k :: !s'.calls[j].stage.Wrote?
  {
    hide Run, RecordOf;
    if n == 0 {
      EmptyRun(s);
    } else {
      DrainRun(s, n - 1, k);
      if n - 1 == k {
        assert Drain(n, k) == Drain(n - 1, k);
      } else {
        RunLast(s, Drain(n - 1, k), AppendRecord(n - 1, 0));
      }
    }
  }

  lemma EmptyRun(s: System)
    ensures Run(s, []) == s
  {}

  /** The append of call k is outstanding and would not record the stored decision. */
  predicate Misleads(s: System, k: nat, id: string)
    requires id in s.sys.store.incidents && k < |s.calls|
  {
    Pending(s, k, id) && PhaseOf(s.calls[k].call) != s.sys.store.incidents[id].phase
  }

  /** If an outstanding append does not record the stored decision, let it come last. */
  lemma LastAppendDisagrees(s: System, k: nat, id: string) returns (es: seq<Event>)
    requires Inv(s) && id in s.sys.store.incidents && k < |s.calls| && Misleads(s, k, id)
    ensures Appends(es) && !Outstanding(Run(s, es), id) && !Agrees(Run(s, es), id)
  {
    hide Run, CallOk, RecordOk, LastWrite, Agrees, RecordOf;
    var drain, last := Drain(|s.calls|, k), AppendRecord(k, 0);
    var s1 := Run(s, drain);
    es := drain + [last];
    DrainRun(s, |s.calls|, k);
    RunLast(s, drain, last);
    assert id in s.created;
    AppendReplays(s1, k, 0, id);
  }

  /** What being on course means, exactly: in whatever order the outstanding appends come, the log agrees in the end. */
  lemma OnCourseMeans(s: System, id: string)
    requires Inv(s) && id in s.sys.store.incidents
    ensures OnCourse(s, id) <==> EndsAgreeing(s, id)
  {
    if OnCourse(s, id) {
      forall es | Appends(es) && !Outstanding(Run(s, es), id) ensures Agrees(Run(s, es), id) {
        AppendsStayOnCourse(s, es, id);
      }
    } else if exists k: nat :: k < |s.calls| && Misleads(s, k, id) {
      var k: nat :| k < |s.calls| && Misleads(s, k, id);
      var es := LastAppendDisagrees(s, k, id);
    } else {
      assert forall k | 0 <= k < |s.calls| && Pending(s, k, id) :: !Misleads(s, k, id);
      var es := [];
      assert Run(s, es) == s && Appends(es);
    }
  }
}
