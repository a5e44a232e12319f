/**
 The whole system at its real grain: Pilots, the target, and a control plane whose operations are
 transactions interleaved one SQL statement at a time. What EndToEnd.dfy shows of single steps holds
 here, because every run here, seen through its committed tables, is a run there.
 */
module Interleaved {
  import opened Prelude
  import opened Ledger
  import opened Pilot
  import opened Api
  import T = Transactions
  import E = EndToEnd

  /** A transaction that carries a Pilot's report bears the Pilot's number. */
  datatype World = World(system: T.System, pilots: map<nat, E.Process>, history: seq<E.Past>)

  datatype Event =
    | Statement(ev: T.Event)                     // one SQL statement, a client's submission or approval among them
    | Fetch(pilot: nat, row: Row, nonce: Nonce)
    | RunIt(pilot: nat, schedule: Schedule)
    | Send(pilot: nat)                           // its report reaches the service, which begins a transaction
    | Again(index: nat, id: nat)                 // a report that was recorded reaches the service once more
    | Lost(pilot: nat)                           // it dies or gives up, and its report is lost for good

  function ReportOf(a: Attempt, s: Schedule): Op {
    RecordOp(a.row, a.nonce, ReportOn(s))
  }

  /** Clients come through the service, and only Pilots report. */
  predicate Allowed(w: World, ev: T.Event) {
    match ev
    case SubmitNow(op) => op.SubmitOp? && LetIn(op)
    case Begin(id, op) => op.ApproveOp? && LetIn(op) && id !in w.pilots
    case _ => true
  }

  /** This statement answers the Pilot's report: recorded, or refused. */
  predicate AnswersPilot(w: World, ev: T.Event) {
    T.Answered(w.system, ev).Some? && ev.id in w.pilots
  }

  function Next(w: World, ev: Event): World {
    match ev
    case Statement(ev) =>
      if !Allowed(w, ev) then w
      else World(T.Next(w.system, ev), if AnswersPilot(w, ev) then w.pilots - {ev.id} else w.pilots, w.history)
    case Fetch(p, row, nonce) =>
      if p in w.pilots || p in w.system.txs || nonce == E.NO_NONCE
         || row !in w.system.committed.requests || w.system.committed.requests[row].state != Approved then w
      else w.(pilots := w.pilots[p := E.Fetched(Attempt(row, nonce))])
    case RunIt(p, s) =>
      if p !in w.pilots || !w.pilots[p].Fetched? || !Possible(s) then w
      else w.(pilots := w.pilots[p := E.Ran(w.pilots[p].attempt, s)],
              history := w.history + [E.Past(w.pilots[p].attempt, s)])
    case Send(p) =>
      if p !in w.pilots || !w.pilots[p].Ran? || p in w.system.txs then w
      else if !Admitted(w.pilots[p].attempt.nonce) then w.(pilots := w.pilots - {p})
      else w.(system := T.Next(w.system, T.Begin(p, ReportOf(w.pilots[p].attempt, w.pilots[p].schedule))))
    case Again(i, id) =>
      if i >= |w.history| || w.history[i].attempt !in w.system.committed.executions
         || !Admitted(w.history[i].attempt.nonce) || id in w.pilots then w
      else w.(system := T.Next(w.system, T.Begin(id, ReportOf(w.history[i].attempt, w.history[i].schedule))))
    case Lost(p) =>
      if p in w.pilots && p in w.system.txs then w else w.(pilots := w.pilots - {p})
  }

  function Exec(w: World, events: seq<Event>): World {
    if events == [] then w else Next(Exec(w, events[..|events| - 1]), events[|events| - 1])
  }

  function Start(t: Tables): World {
    World(T.Start(true, t), map[], [])
  }

  // ---------------------------------------------------------------- the world as single steps

  /** What the committed tables, the Pilots and the target show. */
  function View(w: World): E.World {
    E.World(w.system.committed, w.pilots, w.history)
  }

  /** The single step an event is, if it is one. */
  function StepOf(w: World, ev: Event): Option<E.Event> {
    match ev
    case Statement(ev) =>
      if !Allowed(w, ev) then None
      else if ev.SubmitNow? then Some(E.Ask(ev.op))
      else if AnswersPilot(w, ev) then Some(E.Report(ev.id))
      else if T.Answered(w.system, ev) == Some(Done(())) && w.system.txs[ev.id].op.ApproveOp? then Some(E.Ask(w.system.txs[ev.id].op))
      else None
    case Fetch(p, row, nonce) => if p in w.system.txs then None else Some(E.Fetch(p, row, nonce))
    case RunIt(p, s) => Some(E.RunIt(p, s))
    case Send(p) =>
      if p in w.pilots && w.pilots[p].Ran? && p !in w.system.txs && !Admitted(w.pilots[p].attempt.nonce)
      then Some(E.Report(p)) else None
    case Again(_, _) => None
    case Lost(p) => if p in w.pilots && p in w.system.txs then None else Some(E.Die(p))
  }

  /** The single steps of a run. */
  function StepsOf(w: World, events: seq<Event>): seq<E.Event> {
    if events == [] then []
    else
      var before := events[..|events| - 1];
      match StepOf(Exec(w, before), events[|events| - 1])
      case None => StepsOf(w, before)
      case Some(step) => StepsOf(w, before) + [step]
  }

  /** The operator's rules, on the steps they are about: starting an attempt and losing one. */
  predicate Obeys(rules: E.Rules, w: World, ev: Event) {
    match ev
    case Fetch(p, row, nonce) => p in w.system.txs || E.Obeys(rules, View(w), E.Fetch(p, row, nonce))
    case Lost(p) => (p in w.pilots && p in w.system.txs) || E.Obeys(rules, View(w), E.Die(p))
    case _ => true
  }

  predicate Disciplined(rules: E.Rules, w: World, events: seq<Event>) {
    events == [] ||
    (Disciplined(rules, w, events[..|events| - 1]) && Obeys(rules, Exec(w, events[..|events| - 1]), events[|events| - 1]))
  }

  // ---------------------------------------------------------------- the invariant

  /** An open transaction is a Pilot's, carrying its report, or repeats a recorded one, or approves. */
  ghost predicate Carries(w: World, id: nat)
    requires id in w.system.txs
  {
    var op := w.system.txs[id].op;
    && LetIn(op)
    && (id in w.pilots ==>
          && w.pilots[id].Ran? && op == ReportOf(w.pilots[id].attempt, w.pilots[id].schedule)
          && Admitted(w.pilots[id].attempt.nonce))
    && (id !in w.pilots && op.RecordOp? ==> Attempt(op.row, op.nonce) in w.system.committed.executions)
  }

  ghost predicate Inv(w: World, tenants: set<Tenant>) {
    && T.Inv(w.system, Empty(tenants))
    && (forall id | id in w.system.txs :: Carries(w, id))
    && (forall i | 0 <= i < |w.system.log| :: LetIn(w.system.log[i].op))
    && (forall p | p in w.pilots && w.pilots[p].Ran? :: Possible(w.pilots[p].schedule))
    && (forall i | 0 <= i < |w.history| :: Possible(w.history[i].schedule))
  }

  /** The operations of one system's transactions, apart from `id`'s if it has ended. */
  ghost predicate SameOps(s: T.System, s': T.System) {
    forall id | id in s'.txs :: id in s.txs && s'.txs[id].op == s.txs[id].op
  }

  lemma LockKeepsOps(s: T.System, id: nat)
    requires id in s.txs && s.txs[id].at == T.Begun
    ensures SameOps(s, T.LockRow(s, id))
  {
    hide T.Runnable;
  }

  lemma WriteKeepsOps(s: T.System, id: nat)
    requires id in s.txs && !s.txs[id].op.SubmitOp?
    ensures SameOps(s, T.WriteRow(s, id))
  {
    hide ExecutionFits, ApprovalFits;
  }

  lemma CommitKeepsOps(s: T.System, id: nat)
    ensures SameOps(s, T.Next(s, T.Commit(id)))
  {
    hide T.Merge;
  }

  /** A statement keeps each transaction's operation, and opens one only by Begin. */
  lemma StatementsKeepOps(s: T.System, ev: T.Event)
    ensures ev.Begin? || SameOps(s, T.Next(s, ev))
  {
    hide T.LockRow, T.WriteRow, T.Merge, Apply;
    match ev
    case SubmitNow(_) =>
    case Begin(_, _) =>
    case Lock(id) => if id in s.txs && s.txs[id].at == T.Begun { LockKeepsOps(s, id); }
    case Look(_) =>
    case Write(id) => if id in s.txs && !s.txs[id].op.SubmitOp? { WriteKeepsOps(s, id); }
    case Update(_) =>
    case Commit(id) => CommitKeepsOps(s, id);
    case Abort(_) =>
  }

  lemma BeginOpens(s: T.System, id: nat, op: Op)
    ensures forall other | other in T.Next(s, T.Begin(id, op)).txs ::
              if other in s.txs then T.Next(s, T.Begin(id, op)).txs[other].op == s.txs[other].op
              else other == id && T.Next(s, T.Begin(id, op)).txs[other].op == op
  {
  }

  lemma ExecutionsStay(s: T.System, initial: Tables, ev: T.Event)
    requires T.Inv(s, initial)
    ensures s.committed.executions.Keys <= T.Next(s, ev).committed.executions.Keys
  {
    hide T.Inv, T.Next, Apply;
    T.NextIsOneApply(s, initial, ev);
    var s' := T.Next(s, ev);
    if s'.committed != s.committed { ApplyExtends(s.committed, s'.log[|s.log|].op); }
  }

  lemma StatementKeepsCarriers(w: World, tenants: set<Tenant>, ev: T.Event)
    requires Inv(w, tenants) && Allowed(w, ev)
    ensures var w' := Next(w, Statement(ev)); forall id | id in w'.system.txs :: Carries(w', id)
  {
    hide T.Inv, T.Next, LetIn, Admitted, Possible, ReportOn;
    var w' := Next(w, Statement(ev));
    StatementsKeepOps(w.system, ev);
    if ev.Begin? { BeginOpens(w.system, ev.id, ev.op); }
    ExecutionsStay(w.system, Empty(tenants), ev);
    if AnswersPilot(w, ev) { T.AnswersAreNotSubmissions(w.system, ev); }
    hide T.Answered;
    forall id | id in w'.system.txs
      ensures Carries(w', id)
    {
      if id in w.system.txs { assert Carries(w, id); }
    }
  }

  lemma StatementKeepsLog(w: World, tenants: set<Tenant>, ev: T.Event)
    requires Inv(w, tenants) && Allowed(w, ev)
    ensures forall i | 0 <= i < |T.Next(w.system, ev).log| :: LetIn(T.Next(w.system, ev).log[i].op)
  {
    hide T.Inv, T.Next, LetIn, Possible, Apply;
    T.NextIsOneApply(w.system, Empty(tenants), ev);
    var before, after := w.system.log, T.Next(w.system, ev).log;
    forall i | 0 <= i < |after|
      ensures LetIn(after[i].op)
    {
      if i < |before| {
        assert after[i] == before[i];
      } else if ev.Commit? && ev.id in w.system.txs {
        assert Carries(w, ev.id);
      }
    }
  }

  lemma StatementKeepsInv(w: World, tenants: set<Tenant>, ev: T.Event)
    requires Inv(w, tenants)
    ensures Inv(Next(w, Statement(ev)), tenants)
  {
    hide T.Inv, T.Next, LetIn, Possible, Carries, T.Answered;
    if Allowed(w, ev) {
      T.NextKeepsInv(w.system, Empty(tenants), ev);
      StatementKeepsCarriers(w, tenants, ev);
      StatementKeepsLog(w, tenants, ev);
    }
  }

  /** A report's transaction begins; nothing committed moves. */
  lemma BeginKeepsInv(w: World, tenants: set<Tenant>, id: nat, op: Op)
    requires Inv(w, tenants) && op.RecordOp? && LetIn(op)
    requires if id in w.pilots
             then w.pilots[id].Ran? && op == ReportOf(w.pilots[id].attempt, w.pilots[id].schedule) && id !in w.system.txs
             else Attempt(op.row, op.nonce) in w.system.committed.executions
    ensures Inv(w.(system := T.Next(w.system, T.Begin(id, op))), tenants)
  {
    hide T.Inv, Possible, Admitted;
    T.NextKeepsInv(w.system, Empty(tenants), T.Begin(id, op));
    var w' := w.(system := T.Next(w.system, T.Begin(id, op)));
    forall other | other in w'.system.txs
      ensures Carries(w', other)
    {
      if other in w.system.txs { assert Carries(w, other); }
    }
  }

  lemma PilotsKeepInv(w: World, tenants: set<Tenant>, ev: Event)
    requires Inv(w, tenants) && (ev.Fetch? || ev.RunIt? || ev.Lost?)
    ensures Inv(Next(w, ev), tenants)
  {
    hide T.Inv, LetIn, Possible, Admitted, ReportOn;
    var w' := Next(w, ev);
    forall id | id in w'.system.txs
      ensures Carries(w', id)
    {
      assert Carries(w, id);
    }
  }

  lemma ReportIsLetIn(a: Attempt, s: Schedule)
    requires Possible(s) && Admitted(a.nonce)
    ensures LetIn(ReportOf(a, s))
  {
    hide Admitted, Possible, ReportOn;
    ReportIsTruthful(s);
  }

  lemma NextKeepsInv(w: World, tenants: set<Tenant>, ev: Event)
    requires Inv(w, tenants)
    ensures Inv(Next(w, ev), tenants)
  {
    hide T.Inv, T.Next, LetIn, Possible, Admitted, Carries, Allowed, AnswersPilot, ReportOf;
    match ev
    case Statement(st) => StatementKeepsInv(w, tenants, st);
    case Send(p) =>
      if p in w.pilots && w.pilots[p].Ran? && p !in w.system.txs {
        SendKeepsInv(w, tenants, p);
      }
    case Again(i, id) =>
      if i < |w.history| && w.history[i].attempt in w.system.committed.executions
         && Admitted(w.history[i].attempt.nonce) && id !in w.pilots {
        AgainKeepsInv(w, tenants, i, id);
      }
    case _ => PilotsKeepInv(w, tenants, ev);
  }

  lemma SendKeepsInv(w: World, tenants: set<Tenant>, p: nat)
    requires Inv(w, tenants) && p in w.pilots && w.pilots[p].Ran? && p !in w.system.txs
    ensures Inv(Next(w, Send(p)), tenants)
  {
    hide T.Inv, T.Next, LetIn, Possible, Admitted, ReportOn;
    if Admitted(w.pilots[p].attempt.nonce) {
      ReportIsLetIn(w.pilots[p].attempt, w.pilots[p].schedule);
      BeginKeepsInv(w, tenants, p, ReportOf(w.pilots[p].attempt, w.pilots[p].schedule));
    } else {
      var w' := Next(w, Send(p));
      forall id | id in w'.system.txs ensures Carries(w', id) { assert Carries(w, id); }
    }
  }

  lemma AgainKeepsInv(w: World, tenants: set<Tenant>, i: nat, id: nat)
    requires Inv(w, tenants) && i < |w.history| && w.history[i].attempt in w.system.committed.executions
    requires Admitted(w.history[i].attempt.nonce) && id !in w.pilots
    ensures Inv(Next(w, Again(i, id)), tenants)
  {
    hide T.Inv, T.Next, LetIn, Possible, Admitted, ReportOn, Carries;
    ReportIsLetIn(w.history[i].attempt, w.history[i].schedule);
    BeginKeepsInv(w, tenants, id, ReportOf(w.history[i].attempt, w.history[i].schedule));
  }

  lemma {:induction false} ExecKeepsInv(tenants: set<Tenant>, events: seq<Event>)
    ensures Inv(Exec(Start(Empty(tenants)), events), tenants)
  {
    if events == [] {
      T.ExecKeepsInv(Empty(tenants), []);
    } else {
      hide Next, Inv;
      ExecKeepsInv(tenants, events[..|events| - 1]);
      NextKeepsInv(Exec(Start(Empty(tenants)), events[..|events| - 1]), tenants, events[|events| - 1]);
    }
  }

  // ---------------------------------------------------------------- the simulation

  lemma CommittedIsConsistent(w: World, tenants: set<Tenant>)
    requires Inv(w, tenants)
    ensures Consistent(w.system.committed)
  {
    hide Consistent, Run, Carries, Possible, LetIn;
    EveryRunIsConsistent(tenants, T.Ops(w.system.log));
  }

  /** Answering a Pilot is its report made at once on the tables of that moment. */
  lemma AnswerIsReport(w: World, tenants: set<Tenant>, ev: T.Event)
    requires Inv(w, tenants) && AnswersPilot(w, ev)
    ensures w.pilots[ev.id].Ran?
    ensures T.Next(w.system, ev).committed == E.Record(w.system.committed, w.pilots[ev.id].attempt, w.pilots[ev.id].schedule)
  {
    T.AnswersAreNotSubmissions(w.system, ev);
    hide T.Inv, T.Next, T.Answered, LetIn, Possible, Admitted, ReportOn, RecordExecution, Apply;
    assert Carries(w, ev.id);
    var t, a, s := w.system.committed, w.pilots[ev.id].attempt, w.pilots[ev.id].schedule;
    ReportIsTruthful(s);
    ReportsCrossTheWire(t, a.row, a.nonce, ReportOn(s));
    assert E.Record(t, a, s) == RecordExecution(t, a.row, a.nonce, ReportOn(s)).0;
    AnswerIsApply(w.system, Empty(tenants), ev);
    assert Apply(t, ReportOf(a, s)) == RecordExecution(t, a.row, a.nonce, ReportOn(s)).0 by { ApplyOfReport(t, a, ReportOn(s)); }
  }

  lemma ApplyOfReport(t: Tables, a: Attempt, e: Execution)
    ensures Apply(t, RecordOp(a.row, a.nonce, e)) == RecordExecution(t, a.row, a.nonce, e).0
  {
  }

  /** Whatever the answer, the tables are then as the atomic operation leaves them. */
  lemma AnswerIsApply(s: T.System, initial: Tables, ev: T.Event)
    requires T.Inv(s, initial) && T.Answered(s, ev).Some? && ev.id in s.txs
    ensures T.Next(s, ev).committed == Apply(s.committed, s.txs[ev.id].op)
  {
    hide T.Inv, T.Next, T.Answered, T.AtomicAnswer, Apply;
    T.AnswerIsAtomic(s, initial, ev);
    T.NextIsOneApply(s, initial, ev);
    T.AnswersAreNotSubmissions(s, ev);
    if T.Answered(s, ev) == Some(Done(())) {
      DoneIsLogged(s, ev);
    } else {
      NotDoneChangesNothing(s.committed, s.txs[ev.id].op);
      RefusalIsNotLogged(s, ev);
    }
  }

  lemma NotDoneChangesNothing(t: Tables, op: Op)
    requires T.AtomicAnswer(t, op) != Done(())
    ensures Apply(t, op) == t
  {
    hide SubmissionFits, ApprovalFits, ExecutionFits;
  }

  lemma DoneIsLogged(s: T.System, ev: T.Event)
    requires T.Answered(s, ev) == Some(Done(()))
    ensures |T.Next(s, ev).log| == |s.log| + 1
  {
    hide T.Merge, ExecutionFits, ApprovalFits;
  }

  lemma RefusalIsNotLogged(s: T.System, ev: T.Event)
    requires T.Answered(s, ev).Some? && T.Answered(s, ev) != Some(Done(()))
    ensures T.Next(s, ev).log == s.log
  {
    hide T.Merge, ExecutionFits, ApprovalFits;
  }

  /** A statement that answers nobody leaves the tables alone, a client's submission aside. */
  lemma UnansweredIsSilent(s: T.System, ev: T.Event)
    requires T.Answered(s, ev) == None && !ev.SubmitNow?
    ensures T.Next(s, ev).committed == s.committed
  {
    hide T.Merge, ExecutionFits, ApprovalFits, T.Runnable;
    match ev
    case Begin(_, _) =>
    case Lock(_) =>
    case Look(_) =>
    case Write(_) =>
    case Update(_) =>
    case Commit(_) =>
    case Abort(_) =>
  }

  lemma SubmissionIsAsking(w: World, op: Op)
    requires op.SubmitOp?
    ensures T.Next(w.system, T.SubmitNow(op)).committed == Apply(w.system.committed, op)
    ensures !AnswersPilot(w, T.SubmitNow(op))
  {
    hide Apply;
  }

  /** A repeated report, committed or refused, has changed nothing. */
  lemma RepeatIsNoStep(w: World, tenants: set<Tenant>, ev: T.Event)
    requires Inv(w, tenants) && T.Answered(w.system, ev).Some? && ev.id in w.system.txs && ev.id !in w.pilots
    requires w.system.txs[ev.id].op.RecordOp?
    ensures T.Next(w.system, ev).committed == w.system.committed
  {
    T.AnswersAreNotSubmissions(w.system, ev);
    hide T.Inv, T.Next, T.Answered, LetIn, Possible, Run, Accounted, ExecutionFits, RecordExecution;
    assert Carries(w, ev.id);
    CommittedIsConsistent(w, tenants);
    AnswerIsApply(w.system, Empty(tenants), ev);
    var op := w.system.txs[ev.id].op;
    RepeatAgrees(w.system.committed, op.row, op.nonce, op.execution);
  }

  lemma ApprovalIsAsking(s: T.System, initial: Tables, ev: T.Event)
    requires T.Inv(s, initial) && T.Answered(s, ev).Some? && ev.id in s.txs && s.txs[ev.id].op.ApproveOp?
    ensures T.Answered(s, ev) == Some(Done(())) ==> T.Next(s, ev).committed == Apply(s.committed, s.txs[ev.id].op)
    ensures T.Answered(s, ev) != Some(Done(())) ==> T.Next(s, ev).committed == s.committed
  {
    T.AnswersAreNotSubmissions(s, ev);
    hide T.Inv, T.Next, T.Answered, T.AtomicAnswer, Apply;
    AnswerIsApply(s, initial, ev);
    T.AnswerIsAtomic(s, initial, ev);
    if T.Answered(s, ev) != Some(Done(())) { NotDoneChangesNothing(s.committed, s.txs[ev.id].op); }
  }

  lemma NobodySubmitsInSteps(w: World, tenants: set<Tenant>, id: nat)
    requires Inv(w, tenants) && id in w.system.txs
    ensures !w.system.txs[id].op.SubmitOp?
  {
    hide T.HoldersKnow, T.TicketsGrow, T.InLockOrder, Run, LetIn, Possible;
  }

  lemma StatementIsAStep(w: World, tenants: set<Tenant>, ev: T.Event)
    requires Inv(w, tenants)
    ensures var step := StepOf(w, Statement(ev));
            View(Next(w, Statement(ev))) == if step.Some? then E.Next(View(w), step.value) else View(w)
  {
    hide T.Inv, Inv, T.Next, T.Answered, LetIn, Apply, E.Record;
    if !Allowed(w, ev) {
    } else if ev.SubmitNow? {
      SubmissionIsAsking(w, ev.op);
    } else if AnswersPilot(w, ev) {
      AnswerIsReport(w, tenants, ev);
    } else if T.Answered(w.system, ev).Some? {
      T.AnswersAreNotSubmissions(w.system, ev);
      NobodySubmitsInSteps(w, tenants, ev.id);
      assert T.Inv(w.system, Empty(tenants)) by { SystemInv(w, tenants); }
      if w.system.txs[ev.id].op.ApproveOp? {
        ApprovalIsAsking(w.system, Empty(tenants), ev);
      } else {
        RepeatIsNoStep(w, tenants, ev);
      }
    } else {
      UnansweredIsSilent(w.system, ev);
    }
  }

  lemma SystemInv(w: World, tenants: set<Tenant>)
    requires Inv(w, tenants)
    ensures T.Inv(w.system, Empty(tenants))
  {
  }

  lemma BeginIsSilent(s: T.System, id: nat, op: Op)
    ensures T.Next(s, T.Begin(id, op)).committed == s.committed
  {
  }

  /** A report whose nonce the service cannot be given is refused, there as here. */
  lemma UnadmittedIsRefused(t: Tables, a: Attempt, s: Schedule)
    requires Possible(s) && !Admitted(a.nonce)
    ensures E.Record(t, a, s) == t
  {
    hide Possible, ReportOn, Admitted;
    ReportIsTruthful(s);
    ReportsCrossTheWire(t, a.row, a.nonce, ReportOn(s));
  }

  /** Every event is one single step as seen through the committed tables, or no step at all. */
  lemma EventIsAStep(w: World, tenants: set<Tenant>, ev: Event)
    requires Inv(w, tenants)
    ensures var step := StepOf(w, ev);
            View(Next(w, ev)) == if step.Some? then E.Next(View(w), step.value) else View(w)
  {
    hide T.Next, Apply, E.Record, Possible, Admitted, ReportOf, T.Inv, Carries, LetIn;
    match ev
    case Statement(st) => StatementIsAStep(w, tenants, st);
    case Send(p) =>
      if p in w.pilots && w.pilots[p].Ran? && p !in w.system.txs {
        var a, s := w.pilots[p].attempt, w.pilots[p].schedule;
        if Admitted(a.nonce) { BeginIsSilent(w.system, p, ReportOf(a, s)); } else { UnadmittedIsRefused(w.system.committed, a, s); }
      }
    case Again(i, id) =>
      if i < |w.history| { BeginIsSilent(w.system, id, ReportOf(w.history[i].attempt, w.history[i].schedule)); }
    case _ =>
  }

  lemma EventObeys(rules: E.Rules, w: World, ev: Event)
    requires Obeys(rules, w, ev) && StepOf(w, ev).Some?
    ensures E.Obeys(rules, View(w), StepOf(w, ev).value)
  {
    hide Usable, T.Answered;
  }

  /** Refinement: every run at the grain of statements is, step for step, a run of EndToEnd.dfy, and keeps the rules it keeps. */
  lemma {:induction false} RunsAreRunsOfSteps(rules: E.Rules, tenants: set<Tenant>, events: seq<Event>)
    ensures var w0 := Start(Empty(tenants));
            && View(Exec(w0, events)) == E.Exec(E.Start(Empty(tenants)), StepsOf(w0, events))
            && (Disciplined(rules, w0, events) ==> E.Disciplined(rules, E.Start(Empty(tenants)), StepsOf(w0, events)))
  {
    hide Next, E.Next, Inv, Obeys, E.Obeys, StepOf;
    var w0 := Start(Empty(tenants));
    if events != [] {
      var before, ev := events[..|events| - 1], events[|events| - 1];
      var w := Exec(w0, before);
      RunsAreRunsOfSteps(rules, tenants, before);
      ExecKeepsInv(tenants, before);
      EventIsAStep(w, tenants, ev);
      if StepOf(w, ev).Some? {
        E.ExecOne(E.Start(Empty(tenants)), StepsOf(w0, before), StepOf(w, ev).value);
        if Obeys(rules, w, ev) { EventObeys(rules, w, ev); }
      }
    }
  }

  // ---------------------------------------------------------------- main results

  /** At most once, with every operation of the control plane taken apart into its statements. */
  lemma AtMostOnceThroughout(tenants: set<Tenant>, events: seq<Event>, row: Row)
    requires Disciplined(E.ALL, Start(Empty(tenants)), events)
    requires row in Exec(Start(Empty(tenants)), events).system.committed.requests
    ensures var w := View(Exec(Start(Empty(tenants)), events));
            var state := w.tables.requests[row].state;
            && E.Applied(w, row) <= 1
            && (state == Pending ==> E.Applied(w, row) == 0)
            && (state == Approved && !E.InFlight(w, row) ==> E.Applied(w, row) == 0)
            && (state == Executed ==> E.Applied(w, row) == 1)
            && (E.InFlight(w, row) ==> state == Approved)
  {
    hide Exec, E.Exec, Disciplined, E.Disciplined, E.Applied, E.InFlight;
    RunsAreRunsOfSteps(E.ALL, tenants, events);
    E.AtMostOnce(tenants, StepsOf(Start(Empty(tenants)), events), row);
  }

  /** And disciplined or not, what is stored was true of an attempt with that request and nonce. */
  lemma StoredExecutionsAreTrueThroughout(tenants: set<Tenant>, events: seq<Event>, a: Attempt)
    requires a in Exec(Start(Empty(tenants)), events).system.committed.executions
    ensures var w := View(Exec(Start(Empty(tenants)), events));
            exists i :: 0 <= i < |w.history| && w.history[i].attempt == a
                        && ReportOn(w.history[i].schedule) == w.tables.executions[a]
                        && Truthful(w.tables.executions[a], Fate(w.history[i].schedule))
  {
    hide Exec, E.Exec, Disciplined, E.Disciplined, ReportOn, Truthful, Fate;
    RunsAreRunsOfSteps(E.ALL, tenants, events);
    E.StoredExecutionsAreTrue(tenants, StepsOf(Start(Empty(tenants)), events), a);
  }

  lemma {:induction false} RunKeepsTidy(tenants: set<Tenant>, ops: seq<Op>)
    requires forall op | op in ops :: LetIn(op)
    ensures Tidy(Run(Empty(tenants), ops))
  {
    if ops != [] {
      hide LetIn, Apply, Tidy;
      RunKeepsTidy(tenants, ops[..|ops| - 1]);
      ApplyKeepsTidy(Run(Empty(tenants), ops[..|ops| - 1]), ops[|ops| - 1]);
    } else {
      assert Tidy(Empty(tenants));
    }
  }

  /** And nothing is ever stored that the service would not let in: no approval at another stage or by nobody. */
  lemma StoredIsTidyThroughout(tenants: set<Tenant>, events: seq<Event>)
    ensures Tidy(Exec(Start(Empty(tenants)), events).system.committed)
  {
    hide Exec, Run, Tidy, LetIn, Carries, Possible;
    ExecKeepsInv(tenants, events);
    var w := Exec(Start(Empty(tenants)), events);
    forall op | op in T.Ops(w.system.log)
      ensures LetIn(op)
    {
      var i :| 0 <= i < |w.system.log| && T.Ops(w.system.log)[i] == op;
      assert LetIn(w.system.log[i].op);
    }
    RunKeepsTidy(tenants, T.Ops(w.system.log));
  }

  // ---------------------------------------------------------------- an attempt left alone is recorded

  lemma {:induction false} ExecConcat(w: World, a: seq<Event>, b: seq<Event>)
    ensures Exec(w, a + b) == Exec(Exec(w, a), b)
  {
    hide Next;
    if b == [] {
      assert a + b == a;
    } else {
      ExecConcat(w, a, b[..|b| - 1]);
      assert (a + b)[..|a + b| - 1] == a + b[..|b| - 1] && (a + b)[|a + b| - 1] == b[|b| - 1];
    }
  }

  lemma ExecTwo(w: World, a: Event, b: Event)
    ensures Exec(w, [a, b]) == Next(Next(w, a), b)
  {
    hide Next;
    assert [a, b][..1] == [a] && [a][..0] == [];
    assert Exec(w, [a]) == Next(w, a);
  }

  /** A Pilot reads, runs and reports; then its transaction's statements follow one another. */
  function Attempted(row: Row, n: Nonce, s: Schedule): seq<Event> {
    [Fetch(0, row, n), RunIt(0, s)] + ([Send(0), Statement(T.Lock(0))] +
    ([Statement(T.Write(0)), Statement(T.Update(0))] + [Statement(T.Commit(0))]))
  }

  /** A report's transaction, as far as it has got. */
  function Reporting(a: Attempt, s: Schedule, at: T.Stage, ticket: nat): T.Tx {
    T.Tx(ReportOf(a, s), at, ticket, Approved, {},
         if at == T.Locked then map[] else map[a := ReportOn(s)],
         if at == T.Updated then Some(Follows(ReportOn(s).outcome)) else None)
  }

  lemma BeginStatement(sys: T.System, op: Op)
    requires sys.txs == map[] && op.RecordOp?
    ensures T.Next(sys, T.Begin(0, op)) == sys.(txs := map[0 := T.Tx(op, T.Begun, 0, Pending, {}, map[], None)])
  {
  }

  lemma LockStatement(sys: T.System, a: Attempt, s: Schedule)
    requires sys.txs == map[0 := T.Tx(ReportOf(a, s), T.Begun, 0, Pending, {}, map[], None)] && sys.locks == map[]
    requires a.row in sys.committed.requests && sys.committed.requests[a.row].state == Approved
    ensures var sys' := T.Next(sys, T.Lock(0));
            && sys'.txs == map[0 := Reporting(a, s, T.Locked, sys.clock)]
            && sys'.committed == sys.committed && sys'.locking == sys.locking
  {
    hide ReportOn, Follows;
  }

  lemma SendsAndLocks(w: World, a: Attempt, s: Schedule)
    requires w.system.txs == map[] && w.system.locks == map[] && w.system.locking
    requires w.pilots == map[0 := E.Ran(a, s)] && Admitted(a.nonce)
    requires a.row in w.system.committed.requests && w.system.committed.requests[a.row].state == Approved
    ensures var w' := Exec(w, [Send(0), Statement(T.Lock(0))]);
            && w'.pilots == w.pilots && w'.history == w.history && w'.system.committed == w.system.committed
            && w'.system.txs == map[0 := Reporting(a, s, T.Locked, w.system.clock)]
            && w'.system.locking
  {
    hide Admitted, ReportOn, T.Next, Reporting;
    ExecTwo(w, Send(0), Statement(T.Lock(0)));
    BeginStatement(w.system, ReportOf(a, s));
    LockStatement(T.Next(w.system, T.Begin(0, ReportOf(a, s))), a, s);
  }

  lemma WriteStatement(sys: T.System, a: Attempt, s: Schedule, ticket: nat)
    requires sys.txs == map[0 := Reporting(a, s, T.Locked, ticket)]
    requires a !in sys.committed.executions && ExecutionFits(a.nonce, ReportOn(s))
    ensures T.Next(sys, T.Write(0)) == sys.(txs := map[0 := Reporting(a, s, T.Written, ticket)])
  {
    hide ExecutionFits, ReportOn, Follows;
  }

  lemma UpdateStatement(sys: T.System, a: Attempt, s: Schedule, ticket: nat)
    requires sys.txs == map[0 := Reporting(a, s, T.Written, ticket)]
    ensures T.Next(sys, T.Update(0)) == sys.(txs := map[0 := Reporting(a, s, T.Updated, ticket)])
  {
    hide ReportOn, Follows;
  }

  lemma CommitStatement(sys: T.System, a: Attempt, s: Schedule, ticket: nat)
    requires sys.txs == map[0 := Reporting(a, s, T.Updated, ticket)] && a.row in sys.committed.requests
    ensures var sys', t := T.Next(sys, T.Commit(0)), sys.committed;
            && sys'.txs == map[]
            && sys'.committed == WithState(t, a.row, Follows(ReportOn(s).outcome)).(executions := t.executions[a := ReportOn(s)])
  {
    hide ReportOn, Follows;
    var t := sys.committed;
    assert t.executions + map[a := ReportOn(s)] == t.executions[a := ReportOn(s)] && t.approvals + {} == t.approvals;
    assert sys.txs - {0} == map[];
  }

  lemma WritesAndUpdates(w: World, a: Attempt, s: Schedule, ticket: nat)
    requires w.system.txs == map[0 := Reporting(a, s, T.Locked, ticket)]
    requires a !in w.system.committed.executions && ExecutionFits(a.nonce, ReportOn(s))
    ensures var w' := Exec(w, [Statement(T.Write(0)), Statement(T.Update(0))]);
            w' == w.(system := w.system.(txs := map[0 := Reporting(a, s, T.Updated, ticket)]))
  {
    hide ExecutionFits, Reporting, T.Next;
    ExecTwo(w, Statement(T.Write(0)), Statement(T.Update(0)));
    WriteStatement(w.system, a, s, ticket);
    UpdateStatement(T.Next(w.system, T.Write(0)), a, s, ticket);
  }

  lemma Commits(w: World, a: Attempt, s: Schedule, ticket: nat)
    requires w.system.txs == map[0 := Reporting(a, s, T.Updated, ticket)]
    requires w.pilots == map[0 := E.Ran(a, s)] && a.row in w.system.committed.requests
    ensures var w', t := Exec(w, [Statement(T.Commit(0))]), w.system.committed;
            && w'.pilots == map[] && w'.history == w.history
            && w'.system.committed == WithState(t, a.row, Follows(ReportOn(s).outcome)).(executions := t.executions[a := ReportOn(s)])
  {
    hide Reporting, T.Next, ReportOn;
    assert [Statement(T.Commit(0))][..0] == [];
    assert Exec(w, [Statement(T.Commit(0))]) == Next(w, Statement(T.Commit(0)));
    CommitStatement(w.system, a, s, ticket);
  }

  lemma ReadsAndRuns(t: Tables, row: Row, n: Nonce, s: Schedule)
    requires E.Ready(t, row) && n != E.NO_NONCE && Possible(s)
    ensures var w := Exec(Start(t), [Fetch(0, row, n), RunIt(0, s)]);
            && w.system == T.Start(true, t) && w.pilots == map[0 := E.Ran(Attempt(row, n), s)]
            && w.history == [E.Past(Attempt(row, n), s)]
  {
    hide Possible;
    ExecTwo(Start(t), Fetch(0, row, n), RunIt(0, s));
  }

  /**
   On every table with an approved request and nothing recorded, an attempt with a usable nonce that
   nothing disturbs is recorded, statement by statement, and moves the request as its outcome says.
   */
  lemma AttemptsAreRecorded(t: Tables, row: Row, n: Nonce, s: Schedule)
    requires E.Ready(t, row) && Usable(n) && Possible(s)
    ensures var w := Exec(Start(t), Attempted(row, n, s));
            && w.pilots == map[] && w.history == [E.Past(Attempt(row, n), s)]
            && w.system.committed == WithState(t, row, Follows(ReportOn(s).outcome))
                                       .(executions := t.executions[Attempt(row, n) := ReportOn(s)])
  {
    E.UsableIsSome(n);
    ReportIsTruthful(s);
    var a := Attempt(row, n);
    assert Admitted(n) && ExecutionFits(n, ReportOn(s));
    hide Exec, Usable, Possible, ReportOn, Admitted, ExecutionFits;
    var e1, e2 := [Fetch(0, row, n), RunIt(0, s)], [Send(0), Statement(T.Lock(0))];
    var e3, e4 := [Statement(T.Write(0)), Statement(T.Update(0))], [Statement(T.Commit(0))];
    ExecConcat(Start(t), e1, e2 + (e3 + e4));
    ReadsAndRuns(t, row, n, s);
    var w1 := Exec(Start(t), e1);
    ExecConcat(w1, e2, e3 + e4);
    SendsAndLocks(w1, a, s);
    var w2 := Exec(w1, e2);
    ExecConcat(w2, e3, e4);
    WritesAndUpdates(w2, a, s, w1.system.clock);
    Commits(Exec(w2, e3), a, s, w1.system.clock);
  }
}
