/**
 Concurrent transactions at the granularity of one SQL statement, under READ COMMITTED with row
 locks: any number of them, interleaved anyhow, each able to die anywhere. The committed tables
 are always those of the committed operations run one at a time, in commit order and in the order
 in which they took their locks.
 */
module Transactions {
  import opened Prelude
  import opened Ledger

  /** How far a transaction has got: which of its statements have been answered. */
  datatype Stage = Begun | Locked | Looked | Written | Updated

  /** `op` is never a SubmitOp. The last three fields are writes no other transaction can see yet. */
  datatype Tx = Tx(op: Op, at: Stage, ticket: nat, seen: State,
                   approvals: set<Approval>, executions: map<Attempt, Execution>, state: Option<State>)

  /** A committed operation and the moment its transaction took the row lock. */
  datatype Entry = Entry(op: Op, ticket: nat)

  /** `locking` is false only to show what happens when SELECT loses its FOR UPDATE. */
  datatype System = System(locking: bool, committed: Tables, locks: map<Row, nat>, txs: map<nat, Tx>,
                           clock: nat, log: seq<Entry>)

  datatype Event =
    | SubmitNow(op: Op)
    | Begin(id: nat, op: Op)
    | Lock(id: nat)
    | Look(id: nat)
    | Write(id: nat)
    | Update(id: nat)
    | Commit(id: nat)
    | Abort(id: nat)

  function RowOf(op: Op): Row {
    if op.SubmitOp? then Row(op.tenant, op.drawn) else op.row
  }

  predicate Runnable(s: State, op: Op) {
    if op.ApproveOp? then s == Pending || s == Approved else s == Approved || Terminal(s)
  }

  /** The transaction is over without a COMMIT: its writes vanish and its lock goes. */
  function Drop(s: System, id: nat): System
    requires id in s.txs
  {
    var row := RowOf(s.txs[id].op);
    s.(txs := s.txs - {id}, locks := if row in s.locks && s.locks[row] == id then s.locks - {row} else s.locks)
  }

  function Put(s: System, id: nat, tx: Tx): System {
    s.(txs := s.txs[id := tx])
  }

  /** SELECT state … FOR UPDATE: waits for the lock, then reads the latest committed row. */
  function LockRow(s: System, id: nat): System
    requires id in s.txs && s.txs[id].at == Begun
  {
    var tx := s.txs[id];
    var row := RowOf(tx.op);
    if s.locking && row in s.locks then s
    else if row !in s.committed.requests || !Runnable(s.committed.requests[row].state, tx.op) then Drop(s, id)
    else
      Put(s, id, tx.(at := Locked, seen := s.committed.requests[row].state, ticket := s.clock))
        .(locks := if s.locking then s.locks[row := id] else s.locks, clock := s.clock + 1)
  }

  /** SELECT EXISTS, made only when the request was found terminal. */
  function LookForNonce(s: System, id: nat): System
    requires id in s.txs && s.txs[id].op.RecordOp?
  {
    var tx := s.txs[id];
    if Attempt(tx.op.row, tx.op.nonce) in s.committed.executions then Put(s, id, tx.(at := Looked)) else Drop(s, id)
  }

  /** The INSERT: DO NOTHING for an approval; DO UPDATE for an execution, whose surviving row must agree. */
  function WriteRow(s: System, id: nat): System
    requires id in s.txs && !s.txs[id].op.SubmitOp?
  {
    var tx := s.txs[id];
    match tx.op
    case ApproveOp(row, approver, stage) =>
      if !ApprovalFits(stage, approver) then Drop(s, id)
      else Put(s, id, tx.(at := Written, approvals := {Approval(row, stage, approver)}))
    case RecordOp(row, nonce, e) =>
      var attempt := Attempt(row, nonce);
      if !ExecutionFits(nonce, e) then Drop(s, id)
      else if attempt in s.committed.executions then
        if s.committed.executions[attempt] == e then Put(s, id, tx.(at := Written)) else Drop(s, id)
      else Put(s, id, tx.(at := Written, executions := map[attempt := e]))
    case SubmitOp(_, _, _) => s
  }

  /** The UPDATE of the request's state; a report on a terminal request makes none. */
  function UpdateState(tx: Tx): Tx {
    match tx.op
    case ApproveOp(_, _, _) => tx.(at := Updated, state := Some(Approved))
    case RecordOp(_, _, e) =>
      tx.(at := Updated, state := if tx.seen == Approved then Some(Follows(e.outcome)) else None)
    case SubmitOp(_, _, _) => tx
  }

  /** What the tables hold once the transaction's writes are in. */
  function Merge(t: Tables, tx: Tx): Tables {
    var row := RowOf(tx.op);
    var written := t.(approvals := t.approvals + tx.approvals, executions := t.executions + tx.executions);
    if tx.state.Some? && row in written.requests then WithState(written, row, tx.state.value) else written
  }

  function Next(s: System, ev: Event): System {
    match ev
    case SubmitNow(op) =>
      if !op.SubmitOp? || Apply(s.committed, op) == s.committed then s
      else s.(committed := Apply(s.committed, op), log := s.log + [Entry(op, s.clock)], clock := s.clock + 1)
    case Begin(id, op) =>
      if op.SubmitOp? || id in s.txs then s else Put(s, id, Tx(op, Begun, 0, Pending, {}, map[], None))
    case Lock(id) =>
      if id in s.txs && s.txs[id].at == Begun then LockRow(s, id) else s
    case Look(id) =>
      if id in s.txs && s.txs[id].at == Locked && s.txs[id].op.RecordOp? && s.txs[id].seen != Approved
      then LookForNonce(s, id) else s
    case Write(id) =>
      if id in s.txs && !s.txs[id].op.SubmitOp?
         && (s.txs[id].at == Looked || (s.txs[id].at == Locked && (s.txs[id].op.ApproveOp? || s.txs[id].seen == Approved)))
      then WriteRow(s, id) else s
    case Update(id) =>
      if id in s.txs && s.txs[id].at == Written then Put(s, id, UpdateState(s.txs[id])) else s
    case Commit(id) =>
      if id in s.txs && s.txs[id].at == Updated then
        var tx := s.txs[id];
        Drop(s, id).(committed := Merge(s.committed, tx), log := s.log + [Entry(tx.op, tx.ticket)])
      else s
    case Abort(id) =>
      if id in s.txs then Drop(s, id) else s
  }

  function Exec(s: System, events: seq<Event>): System {
    if events == [] then s else Next(Exec(s, events[..|events| - 1]), events[|events| - 1])
  }

  function Start(locking: bool, t: Tables): System {
    System(locking, t, map[], map[], 0, [])
  }

  function Ops(log: seq<Entry>): seq<Op> {
    seq(|log|, i requires 0 <= i < |log| => log[i].op)
  }

  // ---------------------------------------------------------------- what a transaction knows while it holds its row

  /** Everything the transaction has read is still so, and its writes are exactly its operation's so far. */
  ghost predicate Knows(t: Tables, tx: Tx) {
    && !tx.op.SubmitOp?
    && tx.op.row in t.requests
    && tx.seen == t.requests[tx.op.row].state
    && Runnable(tx.seen, tx.op)
    && (tx.at == Updated || tx.state == None)
    && (match tx.op
        case ApproveOp(row, approver, stage) =>
          && tx.executions == map[] && tx.at != Looked
          && (tx.at == Locked ==> tx.approvals == {})
          && (tx.at in {Written, Updated} ==> ApprovalFits(stage, approver) && tx.approvals == {Approval(row, stage, approver)})
          && (tx.at == Updated ==> tx.state == Some(Approved))
        case RecordOp(row, nonce, e) =>
          var attempt := Attempt(row, nonce);
          && tx.approvals == {}
          && (tx.at != Locked ==> tx.seen == Approved || attempt in t.executions)
          && (tx.at in {Locked, Looked} ==> tx.executions == map[])
          && (tx.at in {Written, Updated} ==>
                && ExecutionFits(nonce, e)
                && (attempt in t.executions ==> t.executions[attempt] == e)
                && tx.executions == if attempt in t.executions then map[] else map[attempt := e])
          && (tx.at == Updated ==> tx.state == if tx.seen == Approved then Some(Follows(e.outcome)) else None)
        case SubmitOp(_, _, _) => false)
  }

  /** A COMMIT at the end is the whole operation done at once on the latest tables, and it answers Done. */
  lemma CommitIsAtomic(t: Tables, tx: Tx)
    requires Knows(t, tx) && tx.at == Updated
    ensures Merge(t, tx) == Apply(t, tx.op)
    ensures tx.op.ApproveOp? ==> Approve(t, tx.op.row, tx.op.approver, tx.op.stage).1.Done?
    ensures tx.op.RecordOp? ==> RecordExecution(t, tx.op.row, tx.op.nonce, tx.op.execution).1.Done?
  {
    if tx.op.RecordOp? {
      var attempt := Attempt(tx.op.row, tx.op.nonce);
      assert t.executions + tx.executions == t.executions[attempt := tx.op.execution];
      assert t.approvals + tx.approvals == t.approvals;
    } else {
      assert t.executions + tx.executions == t.executions;
    }
  }

  /** What a transaction knows is about its own request and that request's executions. */
  ghost predicate SameForRow(t: Tables, t': Tables, row: Row) {
    && (row in t.requests ==> row in t'.requests && t'.requests[row] == t.requests[row])
    && (forall a: Attempt | a.row == row ::
          (a in t.executions <==> a in t'.executions) && (a in t.executions ==> t'.executions[a] == t.executions[a]))
  }

  lemma KnowsItsRowOnly(t: Tables, t': Tables, tx: Tx)
    requires Knows(t, tx) && SameForRow(t, t', tx.op.row)
    ensures Knows(t', tx)
  {
    hide ExecutionFits, ApprovalFits, Runnable, Follows;
  }

  lemma SubmitLeavesRows(t: Tables, op: Op, row: Row)
    requires op.SubmitOp?
    ensures SameForRow(t, Apply(t, op), row)
  {
    hide SubmissionFits, Approve, RecordExecution;
  }

  lemma ApplyLeavesOtherRows(t: Tables, op: Op, row: Row)
    requires RowOf(op) != row || op.SubmitOp?
    ensures SameForRow(t, Apply(t, op), row)
  {
    hide SubmissionFits, ApprovalFits, ExecutionFits, Submit;
    if op.SubmitOp? { SubmitLeavesRows(t, op, row); }
  }

  /** Nothing another row's operation does disturbs what a transaction has read. */
  lemma KnowsIsStable(t: Tables, tx: Tx, op: Op)
    requires Knows(t, tx) && (RowOf(op) != tx.op.row || op.SubmitOp?)
    ensures Knows(Apply(t, op), tx)
  {
    hide Apply, SameForRow;
    assert !tx.op.SubmitOp?;
    ApplyLeavesOtherRows(t, op, tx.op.row);
    KnowsItsRowOnly(t, Apply(t, op), tx);
  }

  // ---------------------------------------------------------------- the invariant of the system

  predicate Conflict(a: Op, b: Op) {
    RowOf(a) == RowOf(b) || (a.SubmitOp? && b.SubmitOp?)
  }

  ghost predicate LocksHeld(s: System) {
    && (forall row | row in s.locks ::
          s.locks[row] in s.txs && s.txs[s.locks[row]].at != Begun && RowOf(s.txs[s.locks[row]].op) == row)
    && (forall id | id in s.txs :: !s.txs[id].op.SubmitOp?
          && (s.txs[id].at != Begun ==> RowOf(s.txs[id].op) in s.locks && s.locks[RowOf(s.txs[id].op)] == id))
  }

  ghost predicate HoldersKnow(s: System) {
    forall id | id in s.txs :: if s.txs[id].at != Begun then Knows(s.committed, s.txs[id])
                               else s.txs[id].approvals == {} && s.txs[id].executions == map[] && s.txs[id].state == None
  }

  /** Conflicting committed operations took their tickets in the order in which they committed. */
  ghost predicate InLockOrder(log: seq<Entry>) {
    forall i, j | 0 <= i < j < |log| && Conflict(log[i].op, log[j].op) :: log[i].ticket < log[j].ticket
  }

  ghost predicate TicketsGrow(s: System) {
    && (forall i | 0 <= i < |s.log| :: s.log[i].ticket < s.clock)
    && (forall id, i | id in s.txs && s.txs[id].at != Begun && 0 <= i < |s.log| && RowOf(s.log[i].op) == RowOf(s.txs[id].op) ::
          s.log[i].ticket < s.txs[id].ticket)
    && (forall id | id in s.txs && s.txs[id].at != Begun :: s.txs[id].ticket < s.clock)
  }

  ghost predicate Inv(s: System, initial: Tables) {
    && s.locking
    && LocksHeld(s) && HoldersKnow(s) && TicketsGrow(s) && InLockOrder(s.log)
    && s.committed == Run(initial, Ops(s.log))
  }

  lemma AppendedOp(initial: Tables, log: seq<Entry>, e: Entry)
    ensures Run(initial, Ops(log + [e])) == Apply(Run(initial, Ops(log)), e.op)
  {
    var ops := Ops(log + [e]);
    assert ops[..|ops| - 1] == Ops(log);
  }

  lemma DropKeepsLocks(s: System, id: nat)
    requires LocksHeld(s) && id in s.txs
    ensures LocksHeld(Drop(s, id))
  {
  }

  lemma DropKeepsInv(s: System, initial: Tables, id: nat)
    requires Inv(s, initial) && id in s.txs
    ensures Inv(Drop(s, id), initial)
  {
    hide Knows, Run, Ops, LocksHeld, InLockOrder;
    DropKeepsLocks(s, id);
  }

  /** A statement of one transaction that leaves its lock, its ticket and the tables alone. */
  lemma PutKeepsInv(s: System, initial: Tables, id: nat, tx: Tx)
    requires Inv(s, initial) && id in s.txs && s.txs[id].at != Begun && tx.at != Begun
    requires tx.op == s.txs[id].op && tx.ticket == s.txs[id].ticket && Knows(s.committed, tx)
    ensures Inv(Put(s, id, tx), initial)
  {
    hide Knows, Run, Ops, LocksHeld, HoldersKnow, InLockOrder;
    PutKeepsLocks(s, id, tx);
    PutKeepsKnowledge(s, id, tx);
  }

  lemma PutKeepsLocks(s: System, id: nat, tx: Tx)
    requires LocksHeld(s) && id in s.txs && s.txs[id].at != Begun && tx.at != Begun && tx.op == s.txs[id].op
    ensures LocksHeld(Put(s, id, tx))
  {
  }

  lemma PutKeepsKnowledge(s: System, id: nat, tx: Tx)
    requires HoldersKnow(s) && tx.at != Begun && Knows(s.committed, tx)
    ensures HoldersKnow(Put(s, id, tx))
  {
    hide Knows;
  }

  /** A lock nobody held is taken, with the latest ticket. */
  lemma LockKeepsLocks(s: System, id: nat)
    requires s.locking && LocksHeld(s) && id in s.txs && s.txs[id].at == Begun && RowOf(s.txs[id].op) !in s.locks
    requires RowOf(s.txs[id].op) in s.committed.requests
    requires Runnable(s.committed.requests[RowOf(s.txs[id].op)].state, s.txs[id].op)
    ensures LocksHeld(LockRow(s, id))
  {
    hide Runnable;
  }

  lemma LockKeepsTickets(s: System, id: nat)
    requires s.locking && TicketsGrow(s) && id in s.txs && s.txs[id].at == Begun && RowOf(s.txs[id].op) !in s.locks
    requires RowOf(s.txs[id].op) in s.committed.requests
    requires Runnable(s.committed.requests[RowOf(s.txs[id].op)].state, s.txs[id].op)
    ensures TicketsGrow(LockRow(s, id))
  {
    hide Runnable;
  }

  /** What the lock's taker has read is the latest committed row. */
  lemma LockKeepsKnowledge(s: System, id: nat)
    requires s.locking && HoldersKnow(s) && id in s.txs && s.txs[id].at == Begun && RowOf(s.txs[id].op) !in s.locks
    requires !s.txs[id].op.SubmitOp? && RowOf(s.txs[id].op) in s.committed.requests
    requires Runnable(s.committed.requests[RowOf(s.txs[id].op)].state, s.txs[id].op)
    ensures HoldersKnow(LockRow(s, id))
  {
    var s' := LockRow(s, id);
    assert Knows(s.committed, s'.txs[id]);
    hide Knows, Runnable;
    forall other | other in s'.txs && other != id && s'.txs[other].at != Begun
      ensures Knows(s'.committed, s'.txs[other])
    {
      assert Knows(s.committed, s.txs[other]);
    }
  }

  lemma LockKeepsInv(s: System, initial: Tables, id: nat)
    requires Inv(s, initial) && id in s.txs && s.txs[id].at == Begun
    ensures Inv(LockRow(s, id), initial)
  {
    hide Knows, Run, Ops, InLockOrder, HoldersKnow, TicketsGrow, Runnable;
    var tx := s.txs[id];
    var row := RowOf(tx.op);
    if row !in s.locks {
      if row !in s.committed.requests || !Runnable(s.committed.requests[row].state, tx.op) {
        DropKeepsInv(s, initial, id);
      } else {
        LockKeepsLocks(s, id);
        LockKeepsTickets(s, id);
        LockKeepsKnowledge(s, id);
      }
    }
  }

  /** An operation takes effect whose row nobody holds and whose ticket follows those it conflicts with. */
  lemma EffectKeepsInv(s: System, initial: Tables, e: Entry)
    requires Inv(s, initial) && e.ticket < s.clock
    requires forall id | id in s.txs && s.txs[id].at != Begun :: RowOf(s.txs[id].op) != RowOf(e.op)
    requires forall i | 0 <= i < |s.log| && Conflict(s.log[i].op, e.op) :: s.log[i].ticket < e.ticket
    ensures Inv(s.(committed := Apply(s.committed, e.op), log := s.log + [e]), initial)
  {
    hide Knows, Apply, Run;
    var s' := s.(committed := Apply(s.committed, e.op), log := s.log + [e]);
    AppendedOp(initial, s.log, e);
    forall id | id in s'.txs && s'.txs[id].at != Begun
      ensures Knows(s'.committed, s'.txs[id])
    {
      KnowsIsStable(s.committed, s.txs[id], e.op);
    }
    assert LocksHeld(s') && HoldersKnow(s') && TicketsGrow(s') && InLockOrder(s'.log);
  }

  lemma SubmitKeepsInv(s: System, initial: Tables, op: Op)
    requires Inv(s, initial) && op.SubmitOp? && Apply(s.committed, op) != s.committed
    ensures Inv(Next(s, SubmitNow(op)), initial)
  {
    assert RowOf(op) !in s.committed.requests;
    forall id | id in s.txs && s.txs[id].at != Begun
      ensures RowOf(s.txs[id].op) != RowOf(op)
    {
      assert Knows(s.committed, s.txs[id]);
    }
    EffectKeepsInv(s.(clock := s.clock + 1), initial, Entry(op, s.clock));
  }

  lemma CommitKeepsInv(s: System, initial: Tables, id: nat)
    requires Inv(s, initial) && id in s.txs && s.txs[id].at == Updated
    ensures Inv(Next(s, Commit(id)), initial)
  {
    hide Run, Ops, Apply, Merge, InLockOrder, Knows;
    var tx := s.txs[id];
    assert Knows(s.committed, tx);
    CommitIsAtomic(s.committed, tx);
    DropKeepsInv(s, initial, id);
    EffectKeepsInv(Drop(s, id), initial, Entry(tx.op, tx.ticket));
  }

  lemma BeginKeepsInv(s: System, initial: Tables, id: nat, op: Op)
    requires Inv(s, initial)
    ensures Inv(Next(s, Begin(id, op)), initial)
  {
    hide Knows, Run, Ops, InLockOrder, LocksHeld, TicketsGrow;
    BeginKeepsLocks(s, id, op);
    BeginKeepsTickets(s, id, op);
  }

  lemma BeginKeepsLocks(s: System, id: nat, op: Op)
    requires LocksHeld(s)
    ensures LocksHeld(Next(s, Begin(id, op)))
  {
  }

  lemma BeginKeepsTickets(s: System, id: nat, op: Op)
    requires TicketsGrow(s)
    ensures TicketsGrow(Next(s, Begin(id, op)))
  {
  }

  lemma NextKeepsInv(s: System, initial: Tables, ev: Event)
    requires Inv(s, initial)
    ensures Inv(Next(s, ev), initial)
  {
    hide Knows, Run, Ops, InLockOrder, LockRow, LocksHeld, TicketsGrow, LookForNonce, WriteRow, UpdateState, Merge, Drop, Apply;
    match ev
    case SubmitNow(op) =>
      if op.SubmitOp? && Apply(s.committed, op) != s.committed { SubmitKeepsInv(s, initial, op); }
    case Begin(id, op) => BeginKeepsInv(s, initial, id, op);
    case Lock(id) =>
      if id in s.txs && s.txs[id].at == Begun { LockKeepsInv(s, initial, id); }
    case Look(id) =>
      if Next(s, ev) != s { StatementKeepsInv(s, initial, ev); }
    case Write(id) =>
      if Next(s, ev) != s { StatementKeepsInv(s, initial, ev); }
    case Update(id) =>
      if Next(s, ev) != s { StatementKeepsInv(s, initial, ev); }
    case Commit(id) =>
      if id in s.txs && s.txs[id].at == Updated { CommitKeepsInv(s, initial, id); }
    case Abort(id) =>
      if id in s.txs { DropKeepsInv(s, initial, id); }
  }

  /** A statement in mid-transaction either ends it or leaves it knowing what it knew and wrote. */
  ghost predicate Proceeds(s: System, id: nat, s': System)
    requires id in s.txs
  {
    || s' == Drop(s, id)
    || (&& id in s'.txs && s' == Put(s, id, s'.txs[id]) && Knows(s.committed, s'.txs[id])
        && s'.txs[id].at != Begun && s'.txs[id].op == s.txs[id].op && s'.txs[id].ticket == s.txs[id].ticket)
  }

  lemma LookProceeds(s: System, id: nat)
    requires id in s.txs && s.txs[id].op.RecordOp? && s.txs[id].at == Locked && Knows(s.committed, s.txs[id])
    ensures Proceeds(s, id, LookForNonce(s, id))
  {
    hide ExecutionFits, Runnable;
  }

  lemma WriteProceeds(s: System, id: nat)
    requires id in s.txs && !s.txs[id].op.SubmitOp? && s.txs[id].at in {Locked, Looked} && Knows(s.committed, s.txs[id])
    requires s.txs[id].op.ApproveOp? || s.txs[id].at == Looked || s.txs[id].seen == Approved
    ensures Proceeds(s, id, WriteRow(s, id))
  {
    hide ExecutionFits, ApprovalFits, Runnable;
  }

  lemma UpdateProceeds(s: System, id: nat)
    requires id in s.txs && s.txs[id].at == Written && Knows(s.committed, s.txs[id])
    ensures Proceeds(s, id, Put(s, id, UpdateState(s.txs[id])))
  {
    hide ExecutionFits, ApprovalFits, Runnable;
  }

  lemma StatementKnows(s: System, ev: Event)
    requires (ev.Look? || ev.Write? || ev.Update?) && Next(s, ev) != s && ev.id in s.txs && Knows(s.committed, s.txs[ev.id])
    ensures Proceeds(s, ev.id, Next(s, ev))
  {
    hide Knows, Proceeds, LookForNonce, WriteRow, UpdateState;
    match ev
    case Look(id) => LookProceeds(s, id);
    case Write(id) => WriteProceeds(s, id);
    case Update(id) => UpdateProceeds(s, id);
  }

  lemma StatementKeepsInv(s: System, initial: Tables, ev: Event)
    requires Inv(s, initial) && (ev.Look? || ev.Write? || ev.Update?) && Next(s, ev) != s
    ensures Inv(Next(s, ev), initial)
  {
    hide Knows, LookForNonce, WriteRow, UpdateState, Run, Ops, LocksHeld, TicketsGrow;
    var id := ev.id;
    assert Knows(s.committed, s.txs[id]);
    StatementKnows(s, ev);
    var s' := Next(s, ev);
    if s' == Drop(s, id) {
      DropKeepsInv(s, initial, id);
    } else {
      PutKeepsInv(s, initial, id, s'.txs[id]);
    }
  }

  lemma {:induction false} ExecKeepsInv(initial: Tables, events: seq<Event>)
    ensures Inv(Exec(Start(true, initial), events), initial)
  {
    if events == [] {
      assert Ops([]) == [];
    } else {
      ExecKeepsInv(initial, events[..|events| - 1]);
      NextKeepsInv(Exec(Start(true, initial), events[..|events| - 1]), initial, events[|events| - 1]);
    }
  }

  // ---------------------------------------------------------------- main results

  /** The committed tables are the committed operations run one at a time, in the order they committed. */
  lemma CommittedIsSerial(initial: Tables, events: seq<Event>)
    ensures var s := Exec(Start(true, initial), events);
            s.committed == Run(initial, Ops(s.log)) && InLockOrder(s.log)
  {
    ExecKeepsInv(initial, events);
  }

  /** So whatever holds of every serial run holds of every interleaving. */
  lemma CommittedIsConsistent(tenants: set<Tenant>, events: seq<Event>)
    ensures Consistent(Exec(Start(true, Empty(tenants)), events).committed)
  {
    ExecKeepsInv(Empty(tenants), events);
    EveryRunIsConsistent(tenants, Ops(Exec(Start(true, Empty(tenants)), events).log));
  }

  /** The answer a transaction's caller gets when this event ends it, unless it died. */
  function Answered(s: System, ev: Event): Option<Reply<()>> {
    if !(ev.Lock? || ev.Look? || ev.Write? || ev.Commit?) || ev.id !in s.txs || ev.id in Next(s, ev).txs then None
    else if ev.Commit? then Some(Done(()))
    else if ev.Lock? && RowOf(s.txs[ev.id].op) !in s.committed.requests then Some(NoSuchRequest)
    else if ev.Write? && !(match s.txs[ev.id].op
                           case ApproveOp(_, approver, stage) => ApprovalFits(stage, approver)
                           case RecordOp(_, nonce, e) => ExecutionFits(nonce, e)
                           case SubmitOp(_, _, _) => true)
      then Some(Fault)
    else Some(WrongState)
  }

  /** What the atomic operation would answer, its value aside. */
  function AtomicAnswer(t: Tables, op: Op): Reply<()> {
    match op
    case SubmitOp(tenant, drawn, s) => if Submit(t, tenant, drawn, s).1.Done? then Done(()) else Fault
    case ApproveOp(row, approver, stage) => Approve(t, row, approver, stage).1
    case RecordOp(row, nonce, e) =>
      match RecordExecution(t, row, nonce, e).1
      case Done(_) => Done(())
      case NoSuchRequest => NoSuchRequest
      case WrongState => WrongState
      case Fault => Fault
  }

  /** The answer of a transaction that ends by a refusal, given what it knows. */
  lemma RefusalIsAtomic(s: System, ev: Event)
    requires Answered(s, ev).Some? && !ev.Commit? && !s.txs[ev.id].op.SubmitOp?
    requires s.txs[ev.id].at == Begun || Knows(s.committed, s.txs[ev.id])
    ensures Answered(s, ev).value == AtomicAnswer(s.committed, s.txs[ev.id].op)
  {
    hide ApprovalFits, ExecutionFits, Submit;
    var tx := s.txs[ev.id];
    match ev
    case Lock(_) =>
    case Look(_) =>
    case Write(_) =>
  }

  lemma AnswerIsAtomic(s: System, initial: Tables, ev: Event)
    requires Inv(s, initial) && Answered(s, ev).Some?
    ensures Answered(s, ev).value == AtomicAnswer(s.committed, s.txs[ev.id].op)
  {
    hide Next, Run, Ops, TicketsGrow, InLockOrder, Knows, AtomicAnswer;
    var tx := s.txs[ev.id];
    assert tx.at == Begun || Knows(s.committed, tx);
    if ev.Commit? {
      CommitsOnlyWhenUpdated(s, ev);
      CommitAnswersDone(s.committed, tx);
    } else {
      RefusalIsAtomic(s, ev);
    }
  }

  lemma CommitsOnlyWhenUpdated(s: System, ev: Event)
    requires ev.Commit? && Answered(s, ev).Some?
    ensures s.txs[ev.id].at == Updated
  {
    hide Drop, Merge;
  }

  lemma CommitAnswersDone(t: Tables, tx: Tx)
    requires Knows(t, tx) && tx.at == Updated
    ensures AtomicAnswer(t, tx.op) == Done(())
  {
    hide Knows, Merge, Apply, Submit, Approve, RecordExecution;
    CommitIsAtomic(t, tx);
    KnowersDoNotSubmit(t, tx);
    if tx.op.ApproveOp? {
      var reply := Approve(t, tx.op.row, tx.op.approver, tx.op.stage).1;
      assert reply.value == ();
    }
  }

  lemma KnowersDoNotSubmit(t: Tables, tx: Tx)
    requires Knows(t, tx)
    ensures !tx.op.SubmitOp?
  {
  }

  /** Every answer given, refusals included, is the atomic operation's on the tables of that moment. */
  lemma AnswersAreAtomic(initial: Tables, events: seq<Event>, ev: Event)
    requires Answered(Exec(Start(true, initial), events), ev).Some?
    ensures var s := Exec(Start(true, initial), events);
            Answered(s, ev).value == AtomicAnswer(s.committed, s.txs[ev.id].op)
  {
    hide Inv, Answered, AtomicAnswer;
    ExecKeepsInv(initial, events);
    AnswerIsAtomic(Exec(Start(true, initial), events), initial, ev);
  }

  // ---------------------------------------------------------------- between two moments

  lemma {:induction false} ExecConcat(s: System, a: seq<Event>, b: seq<Event>)
    ensures Exec(s, a + b) == Exec(Exec(s, a), b)
  {
    hide Next;
    if b == [] {
      assert a + b == a;
    } else {
      ExecConcat(s, a, b[..|b| - 1]);
      assert (a + b)[..|a + b| - 1] == a + b[..|b| - 1] && (a + b)[|a + b| - 1] == b[|b| - 1];
    }
  }

  /** The log is only ever appended to, and each step of the tables is one operation or none. */
  lemma NextIsOneApply(s: System, initial: Tables, ev: Event)
    requires Inv(s, initial)
    ensures var s' := Next(s, ev);
            || (s'.committed == s.committed && s'.log == s.log)
            || (&& |s'.log| == |s.log| + 1 && s.log < s'.log
                && s'.committed == Apply(s.committed, s'.log[|s.log|].op)
                && (if ev.SubmitNow? then s'.log[|s.log|].op == ev.op
                    else ev.Commit? && ev.id in s.txs && s'.log[|s.log|].op == s.txs[ev.id].op))
  {
    hide Run, Ops, Knows, InLockOrder, TicketsGrow, LocksHeld, LockRow, LookForNonce, WriteRow, UpdateState, Merge, Apply;
    match ev
    case SubmitNow(op) =>
    case Begin(_, _) =>
    case Lock(id) => if Next(s, ev) != s { EndsOrGoesOn(s, ev); }
    case Look(id) => if Next(s, ev) != s { EndsOrGoesOn(s, ev); }
    case Write(id) => if Next(s, ev) != s { EndsOrGoesOn(s, ev); }
    case Update(_) =>
    case Commit(id) =>
      if id in s.txs && s.txs[id].at == Updated {
        assert Knows(s.committed, s.txs[id]);
        CommitIsAtomic(s.committed, s.txs[id]);
      }
    case Abort(_) =>
  }

  /** A statement before COMMIT touches neither the tables nor the log. */
  lemma EndsOrGoesOn(s: System, ev: Event)
    requires ev.Lock? || ev.Look? || ev.Write?
    ensures Next(s, ev).committed == s.committed && Next(s, ev).log == s.log
  {
    hide ExecutionFits, ApprovalFits, Runnable;
  }

  lemma {:induction false} ExecAppends(initial: Tables, a: seq<Event>, b: seq<Event>)
    ensures Exec(Start(true, initial), a).log <= Exec(Start(true, initial), a + b).log
  {
    hide Inv, Next;
    if b == [] {
      assert a + b == a;
    } else {
      var b', all := b[..|b| - 1], a + b;
      assert all[..|all| - 1] == a + b' && all[|all| - 1] == b[|b| - 1];
      ExecAppends(initial, a, b');
      ExecKeepsInv(initial, a + b');
      NextIsOneApply(Exec(Start(true, initial), a + b'), initial, b[|b| - 1]);
    }
  }

  lemma {:induction false} RunConcat(t: Tables, a: seq<Op>, b: seq<Op>)
    ensures Run(t, a + b) == Run(Run(t, a), b)
  {
    hide Apply;
    if b == [] {
      assert a + b == a;
    } else {
      RunConcat(t, a, b[..|b| - 1]);
      assert (a + b)[..|a + b| - 1] == a + b[..|b| - 1] && (a + b)[|a + b| - 1] == b[|b| - 1];
    }
  }

  /** What was committed between two moments of one interleaving, in commit order. */
  function Meanwhile(initial: Tables, a: seq<Event>, b: seq<Event>): seq<Op> {
    var before, after := Exec(Start(true, initial), a).log, Exec(Start(true, initial), a + b).log;
    if |before| <= |after| then Ops(after[|before|..]) else []
  }

  /** The tables at a later moment are those of the earlier one after the operations committed meanwhile, one at a time. */
  lemma CommittedRunsOn(initial: Tables, a: seq<Event>, b: seq<Event>)
    ensures Exec(Start(true, initial), a + b).committed
            == Run(Exec(Start(true, initial), a).committed, Meanwhile(initial, a, b))
  {
    hide Exec, Run, Inv;
    CommittedIsSerial(initial, a);
    CommittedIsSerial(initial, a + b);
    ExecAppends(initial, a, b);
    var before, after := Exec(Start(true, initial), a).log, Exec(Start(true, initial), a + b).log;
    assert Ops(after) == Ops(before) + Ops(after[|before|..]);
    RunConcat(initial, Ops(before), Ops(after[|before|..]));
  }

  /**
   Between any two moments of any interleaving: no submission is rewritten, no terminal state left, no
   key re-pointed, no approval or execution lost or changed. An executed request stays executed.
   */
  lemma CommittedOnlyExtends(initial: Tables, a: seq<Event>, b: seq<Event>)
    ensures Extends(Exec(Start(true, initial), a).committed, Exec(Start(true, initial), a + b).committed)
  {
    hide Exec, Run, Extends;
    CommittedRunsOn(initial, a, b);
    RunExtends(Exec(Start(true, initial), a).committed, Meanwhile(initial, a, b));
  }

  /** A submission made at one moment answers every later one under its key, whatever races in between. */
  lemma SubmitIsIdempotentThroughout(initial: Tables, a: seq<Event>, b: seq<Event>, tenant: Tenant, drawn: Reference,
                                     s: Submission, drawn': Reference, s': Submission)
    requires Submit(Exec(Start(true, initial), a).committed, tenant, drawn, s).1.Done?
    requires s'.key == s.key && SubmissionFits(drawn', s')
    ensures var first := Submit(Exec(Start(true, initial), a).committed, tenant, drawn, s).1.value;
            var later := Exec(Start(true, initial), a + [SubmitNow(SubmitOp(tenant, drawn, s))] + b).committed;
            Submit(later, tenant, drawn', s') == (later, Done(first))
  {
    hide Run, SubmissionFits;
    var op := SubmitOp(tenant, drawn, s);
    var t, now := Exec(Start(true, initial), a).committed, a + [SubmitNow(op)];
    assert now[..|now| - 1] == a;
    assert Exec(Start(true, initial), now).committed == Apply(t, op);
    CommittedRunsOn(initial, now, b);
    SubmitIsIdempotent(t, tenant, drawn, s, Meanwhile(initial, now, b), drawn', s');
  }

  /** While nothing of a tenant's commits, nothing of that tenant's changes, whatever others' transactions do. */
  lemma TenantsAreIsolatedThroughout(initial: Tables, a: seq<Event>, b: seq<Event>, tenant: Tenant)
    requires forall op | op in Meanwhile(initial, a, b) :: TenantOf(op) != tenant
    ensures SameFor(Exec(Start(true, initial), a).committed, Exec(Start(true, initial), a + b).committed, tenant)
  {
    hide Exec, Run, SameFor, Meanwhile;
    CommittedRunsOn(initial, a, b);
    TenantsAreIsolated(Exec(Start(true, initial), a).committed, Meanwhile(initial, a, b), tenant);
  }

  /** A transaction that reports a nonce already recorded answers Done exactly when it agrees, and changes nothing. */
  lemma RepeatsThroughout(tenants: set<Tenant>, events: seq<Event>, ev: Event)
    requires var s := Exec(Start(true, Empty(tenants)), events);
             && Answered(s, ev).Some? && s.txs[ev.id].op.RecordOp?
             && Attempt(s.txs[ev.id].op.row, s.txs[ev.id].op.nonce) in s.committed.executions
    ensures var s := Exec(Start(true, Empty(tenants)), events);
            var op := s.txs[ev.id].op;
            && (Answered(s, ev).value.Done? <==> s.committed.executions[Attempt(op.row, op.nonce)] == op.execution)
            && Next(s, ev).committed == s.committed
  {
    hide Exec, Run, Inv, Answered, RecordExecution, Merge, Drop;
    var s := Exec(Start(true, Empty(tenants)), events);
    AnswersAreNotSubmissions(s, ev);
    var op := s.txs[ev.id].op;
    AnswersAreAtomic(Empty(tenants), events, ev);
    CommittedIsSerial(Empty(tenants), events);
    RepeatIsAcknowledgedIffItAgrees(tenants, Ops(s.log), op.row, op.nonce, op.execution);
    ExecKeepsInv(Empty(tenants), events);
    hide Next;
    NextIsOneApply(s, Empty(tenants), ev);
  }

  /** And one that reports a nonce not recorded at that moment answers Done exactly when its request is then approved and the row legal. */
  lemma FreshNoncesThroughout(initial: Tables, events: seq<Event>, ev: Event)
    requires var s := Exec(Start(true, initial), events);
             && Answered(s, ev).Some? && s.txs[ev.id].op.RecordOp?
             && Attempt(s.txs[ev.id].op.row, s.txs[ev.id].op.nonce) !in s.committed.executions
    ensures var s := Exec(Start(true, initial), events);
            var op := s.txs[ev.id].op;
            Answered(s, ev).value.Done? <==>
              op.row in s.committed.requests && s.committed.requests[op.row].state == Approved && ExecutionFits(op.nonce, op.execution)
  {
    hide Exec, Inv, RecordExecution, ExecutionFits, Next;
    var s := Exec(Start(true, initial), events);
    AnswersAreNotSubmissions(s, ev);
    var op := s.txs[ev.id].op;
    hide Answered;
    AnswersAreAtomic(initial, events, ev);
    FreshNonceNeedsApproval(s.committed, op.row, op.nonce, op.execution);
  }

  lemma AnswersAreNotSubmissions(s: System, ev: Event)
    requires Answered(s, ev).Some?
    ensures !ev.SubmitNow? && ev.id in s.txs && ev.id !in Next(s, ev).txs
  {
  }

  // ---------------------------------------------------------------- sorting by lock

  function Insert(sorted: seq<Entry>, e: Entry): seq<Entry> {
    if sorted == [] || sorted[|sorted| - 1].ticket <= e.ticket then sorted + [e]
    else Insert(sorted[..|sorted| - 1], e) + [sorted[|sorted| - 1]]
  }

  /** The log in the order in which the locks were taken. */
  function SortByTicket(log: seq<Entry>): seq<Entry> {
    if log == [] then [] else Insert(SortByTicket(log[..|log| - 1]), log[|log| - 1])
  }

  ghost predicate Sorted(log: seq<Entry>) {
    forall i, j | 0 <= i < j < |log| :: log[i].ticket <= log[j].ticket
  }

  lemma {:induction false} InsertAdds(sorted: seq<Entry>, e: Entry)
    ensures multiset(Insert(sorted, e)) == multiset(sorted) + multiset{e}
  {
    if sorted != [] {
      var init, last := sorted[..|sorted| - 1], sorted[|sorted| - 1];
      assert sorted == init + [last];
      if last.ticket > e.ticket {
        InsertAdds(init, e);
      }
    }
  }

  lemma {:induction false} InsertBounds(sorted: seq<Entry>, e: Entry, bound: nat)
    requires e.ticket <= bound && forall i | 0 <= i < |sorted| :: sorted[i].ticket <= bound
    ensures forall i | 0 <= i < |Insert(sorted, e)| :: Insert(sorted, e)[i].ticket <= bound
  {
    if sorted != [] && sorted[|sorted| - 1].ticket > e.ticket {
      InsertBounds(sorted[..|sorted| - 1], e, bound);
    }
  }

  lemma AppendSorts(init: seq<Entry>, last: Entry)
    requires Sorted(init) && forall i | 0 <= i < |init| :: init[i].ticket <= last.ticket
    ensures Sorted(init + [last])
  {
  }

  lemma {:induction false} InsertSorts(sorted: seq<Entry>, e: Entry)
    requires Sorted(sorted)
    ensures Sorted(Insert(sorted, e))
  {
    if sorted == [] || sorted[|sorted| - 1].ticket <= e.ticket {
      AppendSorts(sorted, e);
    } else {
      var init, last := sorted[..|sorted| - 1], sorted[|sorted| - 1];
      InsertSorts(init, e);
      InsertBounds(init, e, last.ticket);
      AppendSorts(Insert(init, e), last);
    }
  }

  lemma {:induction false} SortIsSorted(log: seq<Entry>)
    ensures Sorted(SortByTicket(log))
  {
    if log != [] {
      SortIsSorted(log[..|log| - 1]);
      InsertSorts(SortByTicket(log[..|log| - 1]), log[|log| - 1]);
    }
  }

  lemma {:induction false} SortPermutes(log: seq<Entry>)
    ensures multiset(SortByTicket(log)) == multiset(log)
  {
    if log != [] {
      var init, last := log[..|log| - 1], log[|log| - 1];
      SortPermutes(init);
      assert SortByTicket(log) == Insert(SortByTicket(init), last);
      hide SortByTicket, Insert;
      InsertAdds(SortByTicket(init), last);
      OneMoreEntry(log);
    }
  }

  lemma OneMoreEntry(log: seq<Entry>)
    requires log != []
    ensures multiset(log) == multiset(log[..|log| - 1]) + multiset{log[|log| - 1]}
  {
    assert log == log[..|log| - 1] + [log[|log| - 1]];
  }

  /** What an operation adds to the tables, or overwrites in them. */
  datatype Patch = Patch(requests: map<Row, Request>, byKey: map<KeyOf, Reference>,
                         approvals: set<Approval>, executions: map<Attempt, Execution>)

  const NOTHING := Patch(map[], map[], {}, map[])

  function PatchOf(t: Tables, op: Op): Patch {
    if AtomicAnswer(t, op) != Done(()) then NOTHING
    else
      match op
      case SubmitOp(tenant, drawn, s) =>
        if KeyOf(tenant, s.key) in t.byKey then NOTHING
        else Patch(map[Row(tenant, drawn) := Request(s, Pending)], map[KeyOf(tenant, s.key) := drawn], {}, map[])
      case ApproveOp(row, approver, stage) =>
        Patch(map[row := t.requests[row].(state := Approved)], map[], {Approval(row, stage, approver)}, map[])
      case RecordOp(row, nonce, e) =>
        var state := t.requests[row].state;
        Patch(map[row := t.requests[row].(state := if state == Approved then Follows(e.outcome) else state)], map[], {},
              map[Attempt(row, nonce) := e])
  }

  function Patched(t: Tables, p: Patch): Tables {
    Tables(t.tenants, t.requests + p.requests, t.byKey + p.byKey, t.approvals + p.approvals, t.executions + p.executions)
  }

  lemma PatchedNothing(t: Tables)
    ensures Patched(t, NOTHING) == t
  {
    assert t.requests + map[] == t.requests && t.byKey + map[] == t.byKey;
    assert t.approvals + {} == t.approvals && t.executions + map[] == t.executions;
  }

  lemma PatchedSubmission(t: Tables, row: Row, r: Request, k: KeyOf)
    ensures Patched(t, Patch(map[row := r], map[k := row.reference], {}, map[]))
            == t.(requests := t.requests[row := r], byKey := t.byKey[k := row.reference])
  {
    assert t.requests + map[row := r] == t.requests[row := r];
    assert t.byKey + map[k := row.reference] == t.byKey[k := row.reference];
    assert t.approvals + {} == t.approvals && t.executions + map[] == t.executions;
  }

  lemma PatchedApproval(t: Tables, row: Row, r: Request, a: Approval)
    ensures Patched(t, Patch(map[row := r], map[], {a}, map[]))
            == t.(requests := t.requests[row := r], approvals := t.approvals + {a})
  {
    assert t.requests + map[row := r] == t.requests[row := r];
    assert t.byKey + map[] == t.byKey && t.executions + map[] == t.executions;
  }

  lemma PatchedReport(t: Tables, row: Row, r: Request, a: Attempt, e: Execution)
    ensures Patched(t, Patch(map[row := r], map[], {}, map[a := e]))
            == t.(requests := t.requests[row := r], executions := t.executions[a := e])
  {
    assert t.requests + map[row := r] == t.requests[row := r];
    assert t.executions + map[a := e] == t.executions[a := e];
    assert t.byKey + map[] == t.byKey && t.approvals + {} == t.approvals;
  }

  lemma SubmitPatches(t: Tables, op: Op)
    requires op.SubmitOp?
    ensures Apply(t, op) == Patched(t, PatchOf(t, op))
  {
    hide SubmissionFits, Approve, RecordExecution, Patched;
    PatchedNothing(t);
    PatchedSubmission(t, Row(op.tenant, op.drawn), Request(op.submission, Pending), KeyOf(op.tenant, op.submission.key));
  }

  lemma ApprovePatches(t: Tables, op: Op)
    requires op.ApproveOp?
    ensures Apply(t, op) == Patched(t, PatchOf(t, op))
  {
    hide ApprovalFits, Submit, RecordExecution, Patched;
    PatchedNothing(t);
    if op.row in t.requests {
      PatchedApproval(t, op.row, t.requests[op.row].(state := Approved), Approval(op.row, op.stage, op.approver));
    }
  }

  lemma RecordPatches(t: Tables, op: Op)
    requires op.RecordOp?
    ensures Apply(t, op) == Patched(t, PatchOf(t, op))
  {
    hide ExecutionFits, Submit, Approve, Patched;
    PatchedNothing(t);
    if op.row in t.requests {
      var r := t.requests[op.row];
      var r' := r.(state := if r.state == Approved then Follows(op.execution.outcome) else r.state);
      PatchedReport(t, op.row, r', Attempt(op.row, op.nonce), op.execution);
      assert r' == r ==> t.requests[op.row := r'] == t.requests;
    }
  }

  lemma ApplyPatches(t: Tables, op: Op)
    ensures Apply(t, op) == Patched(t, PatchOf(t, op))
  {
    match op
    case SubmitOp(_, _, _) => SubmitPatches(t, op);
    case ApproveOp(_, _, _) => ApprovePatches(t, op);
    case RecordOp(_, _, _) => RecordPatches(t, op);
  }

  /** All that an operation reads: its request, its nonce, the index on keys and the tenants. */
  ghost predicate SameReads(t: Tables, t': Tables, op: Op) {
    && (RowOf(op) in t.requests <==> RowOf(op) in t'.requests)
    && (RowOf(op) in t.requests ==> t'.requests[RowOf(op)] == t.requests[RowOf(op)])
    && (op.SubmitOp? ==> t'.byKey == t.byKey && t'.tenants == t.tenants)
    && (op.RecordOp? ==> (Attempt(op.row, op.nonce) in t.executions <==> Attempt(op.row, op.nonce) in t'.executions))
    && (op.RecordOp? && Attempt(op.row, op.nonce) in t.executions ==>
          t'.executions[Attempt(op.row, op.nonce)] == t.executions[Attempt(op.row, op.nonce)])
  }

  lemma SubmitIsUnread(t: Tables, a: Op, b: Op)
    requires !Conflict(a, b) && a.SubmitOp?
    ensures SameReads(t, Apply(t, a), b)
  {
    hide SubmissionFits, Approve, RecordExecution;
  }

  lemma ApproveIsUnread(t: Tables, a: Op, b: Op)
    requires !Conflict(a, b) && a.ApproveOp?
    ensures SameReads(t, Apply(t, a), b)
  {
    hide ApprovalFits, Submit, RecordExecution;
  }

  lemma RecordIsUnread(t: Tables, a: Op, b: Op)
    requires !Conflict(a, b) && a.RecordOp?
    ensures SameReads(t, Apply(t, a), b)
  {
    hide ExecutionFits, Submit, Approve;
  }

  lemma StrangersReadTheSame(t: Tables, a: Op, b: Op)
    requires !Conflict(a, b)
    ensures SameReads(t, Apply(t, a), b)
  {
    hide SameReads, Apply, Conflict;
    match a
    case SubmitOp(_, _, _) => SubmitIsUnread(t, a, b);
    case ApproveOp(_, _, _) => ApproveIsUnread(t, a, b);
    case RecordOp(_, _, _) => RecordIsUnread(t, a, b);
  }

  /** An operation's answer and writes depend on nothing another request's operation writes. */
  lemma PatchIsLocal(t: Tables, t': Tables, op: Op)
    requires SameReads(t, t', op)
    ensures PatchOf(t', op) == PatchOf(t, op)
  {
    match op
    case SubmitOp(_, _, _) =>
    case ApproveOp(_, _, _) =>
    case RecordOp(_, _, _) =>
  }

  lemma MapsCommute<K, V>(m: map<K, V>, p: map<K, V>, q: map<K, V>)
    requires p.Keys !! q.Keys
    ensures m + p + q == m + q + p
  {
  }

  lemma PatchesCommute(t: Tables, p: Patch, q: Patch)
    requires p.requests.Keys !! q.requests.Keys && p.byKey.Keys !! q.byKey.Keys && p.executions.Keys !! q.executions.Keys
    ensures Patched(Patched(t, p), q) == Patched(Patched(t, q), p)
  {
    MapsCommute(t.requests, p.requests, q.requests);
    MapsCommute(t.byKey, p.byKey, q.byKey);
    MapsCommute(t.executions, p.executions, q.executions);
  }

  lemma StrangersWriteApart(t: Tables, a: Op, b: Op)
    requires !Conflict(a, b)
    ensures PatchOf(t, a).requests.Keys !! PatchOf(t, b).requests.Keys
    ensures PatchOf(t, a).byKey.Keys !! PatchOf(t, b).byKey.Keys
    ensures PatchOf(t, a).executions.Keys !! PatchOf(t, b).executions.Keys
  {
    hide AtomicAnswer;
  }

  /** Operations on different requests, at most one of them a submission, can be swapped. */
  lemma Commute(t: Tables, a: Op, b: Op)
    requires !Conflict(a, b)
    ensures Apply(Apply(t, a), b) == Apply(Apply(t, b), a)
  {
    hide Apply, AtomicAnswer, PatchOf, Patched, SameReads;
    ApplyPatches(t, a);
    ApplyPatches(t, b);
    ApplyPatches(Apply(t, a), b);
    ApplyPatches(Apply(t, b), a);
    StrangersReadTheSame(t, a, b);
    StrangersReadTheSame(t, b, a);
    PatchIsLocal(t, Apply(t, a), b);
    PatchIsLocal(t, Apply(t, b), a);
    StrangersWriteApart(t, a, b);
    PatchesCommute(t, PatchOf(t, a), PatchOf(t, b));
  }

  lemma {:induction false} InsertRunsLast(initial: Tables, sorted: seq<Entry>, e: Entry)
    requires forall x | x in sorted && x.ticket > e.ticket :: !Conflict(x.op, e.op)
    ensures Run(initial, Ops(Insert(sorted, e))) == Apply(Run(initial, Ops(sorted)), e.op)
  {
    if sorted == [] || sorted[|sorted| - 1].ticket <= e.ticket {
      AppendedOp(initial, sorted, e);
    } else {
      var init, last := sorted[..|sorted| - 1], sorted[|sorted| - 1];
      InsertRunsLast(initial, init, e);
      AppendedOp(initial, Insert(init, e), last);
      AppendedOp(initial, init, last);
      assert init + [last] == sorted;
      Commute(Run(initial, Ops(init)), e.op, last.op);
    }
  }

  lemma OnlyStrangersArePassed(log: seq<Entry>, e: Entry, x: Entry)
    requires InLockOrder(log + [e]) && x in multiset(log) && x.ticket > e.ticket
    ensures !Conflict(x.op, e.op)
  {
    var i :| 0 <= i < |log| && log[i] == x;
    assert (log + [e])[i] == x && (log + [e])[|log|] == e;
  }

  lemma {:induction false} SortRunsTheSame(initial: Tables, log: seq<Entry>)
    requires InLockOrder(log)
    ensures Run(initial, Ops(SortByTicket(log))) == Run(initial, Ops(log))
  {
    if log == [] {
      assert Ops(log) == [];
    } else {
      var init, last := log[..|log| - 1], log[|log| - 1];
      assert init + [last] == log;
      SortRunsTheSame(initial, init);
      SortPermutes(init);
      forall x | x in SortByTicket(init) && x.ticket > last.ticket
        ensures !Conflict(x.op, last.op)
      {
        assert x in multiset(SortByTicket(init));
        OnlyStrangersArePassed(init, last, x);
      }
      InsertRunsLast(initial, SortByTicket(init), last);
      AppendedOp(initial, init, last);
    }
  }

  /** Every reachable committed store is one reached by running the committed operations in lock order. */
  lemma SerialInLockOrder(initial: Tables, events: seq<Event>)
    ensures var s := Exec(Start(true, initial), events);
            var order := SortByTicket(s.log);
            && Sorted(order) && multiset(order) == multiset(s.log)
            && s.committed == Run(initial, Ops(order))
  {
    ExecKeepsInv(initial, events);
    var s := Exec(Start(true, initial), events);
    SortIsSorted(s.log);
    SortPermutes(s.log);
    SortRunsTheSame(initial, s.log);
  }

  // ---------------------------------------------------------------- without the lock

  lemma ExecTwo(s: System, a: Event, b: Event)
    ensures Exec(s, [a, b]) == Next(Next(s, a), b)
  {
    assert [a, b][..1] == [a] && [a][..0] == [];
    assert Exec(s, [a]) == Next(s, a);
  }

  /** An approver has locked the request, with no lock to show for it. */
  function ApproverLooks(row: Row, approver: string): seq<Event> {
    [Begin(0, ApproveOp(row, approver, 1)), Lock(0)]
  }

  /** Meanwhile one report runs from BEGIN to COMMIT. */
  function ReportLands(row: Row, nonce: Nonce): seq<Event> {
    [Begin(1, RecordOp(row, nonce, Execution(Committed, Some(0)))), Lock(1)] + ([Write(1), Update(1)] + [Commit(1)])
  }

  function ApproverWrites(): seq<Event> {
    [Write(0), Update(0)] + [Commit(0)]
  }

  lemma ExecThree(s: System, a: Event, b: Event, c: Event)
    ensures Exec(s, [a, b] + [c]) == Next(Next(Next(s, a), b), c)
  {
    hide Next;
    ExecTwo(s, a, b);
    assert ([a, b] + [c])[..2] == [a, b];
  }

  /** The three last statements of a report, none of which looks at a lock. */
  lemma ReportWritesUnlocked(s: System, row: Row, nonce: Nonce, e: Execution)
    requires 1 in s.txs && s.txs[1].op == RecordOp(row, nonce, e) && s.txs[1].at == Locked && !s.locking
    requires Knows(s.committed, s.txs[1]) && s.txs[1].seen == Approved
    requires Attempt(row, nonce) !in s.committed.executions && ExecutionFits(nonce, e)
    ensures var after := Exec(s, [Write(1), Update(1)] + [Commit(1)]);
            && !after.locking && after.txs == s.txs - {1}
            && after.committed == Apply(s.committed, RecordOp(row, nonce, e))
  {
    hide Exec, Knows, Merge, Apply, ExecutionFits;
    ExecThree(s, Write(1), Update(1), Commit(1));
    var s1 := Next(s, Write(1));
    assert s1.txs[1].at == Written;
    StatementKnows(s, Write(1));
    var s2 := Next(s1, Update(1));
    assert s2.txs[1].at == Updated;
    StatementKnows(s1, Update(1));
    CommitIsAtomic(s2.committed, s2.txs[1]);
    assert s2.txs - {1} == s.txs - {1};
  }

  lemma ReportLandsUnlocked(s: System, row: Row, nonce: Nonce)
    requires !s.locking && 1 !in s.txs && row in s.committed.requests && s.committed.requests[row].state == Approved
    requires Attempt(row, nonce) !in s.committed.executions && NonceFits(nonce)
    ensures var after := Exec(s, ReportLands(row, nonce));
            && !after.locking && after.txs == s.txs
            && after.committed == Apply(s.committed, RecordOp(row, nonce, Execution(Committed, Some(0))))
  {
    var e := Execution(Committed, Some(0));
    var op := RecordOp(row, nonce, e);
    hide Exec, Apply;
    ExecConcat(s, [Begin(1, op), Lock(1)], [Write(1), Update(1)] + [Commit(1)]);
    ExecTwo(s, Begin(1, op), Lock(1));
    var s' := Next(Next(s, Begin(1, op)), Lock(1));
    assert s'.txs - {1} == s.txs;
    ReportWritesUnlocked(s', row, nonce, e);
  }

  lemma MergedApproval(t: Tables, tx: Tx)
    requires tx.op.ApproveOp? && tx.op.row in t.requests && tx.state == Some(Approved) && tx.executions == map[]
    ensures Merge(t, tx) == WithState(t, tx.op.row, Approved).(approvals := t.approvals + tx.approvals)
  {
    assert t.executions + map[] == t.executions;
  }

  lemma ApproverWritesUnlocked(s: System, row: Row, approver: string)
    requires !s.locking && 0 in s.txs && s.txs[0].op == ApproveOp(row, approver, 1) && s.txs[0].at == Locked
    requires s.txs[0].executions == map[] && row in s.committed.requests && Fits(approver, 320)
    ensures Exec(s, ApproverWrites()).committed
            == WithState(s.committed, row, Approved).(approvals := s.committed.approvals + {Approval(row, 1, approver)})
  {
    hide Exec, Merge, Drop;
    ExecThree(s, Write(0), Update(0), Commit(0));
    var s2 := Next(Next(s, Write(0)), Update(0));
    var tx := s2.txs[0];
    assert tx.at == Updated && tx.state == Some(Approved) && tx.approvals == {Approval(row, 1, approver)};
    hide Next, Fits;
    MergedApproval(s2.committed, tx);
  }

  lemma RecordedAnyway(t: Tables, row: Row, nonce: Nonce, e: Execution)
    requires row in t.requests && t.requests[row].state == Approved && Attempt(row, nonce) !in t.executions
    requires ExecutionFits(nonce, e)
    ensures var t' := Apply(t, RecordOp(row, nonce, e));
            row in t'.requests && Attempt(row, nonce) in t'.executions && t'.executions[Attempt(row, nonce)] == e
  {
    FirstReport(t, row, nonce, e);
  }

  lemma ApprovedAfterACommit(t: Tables, row: Row, a: Attempt)
    requires row in t.requests && t.requests[row].state == Approved
    requires a in t.executions && a.row == row && t.executions[a].outcome == Committed
    ensures !Consistent(t)
  {
    assert !Accounted(t, row);
  }

  /**
   The race the lock is there for. With FOR UPDATE removed, an approval that read the request before
   a report committed moves the executed request back to approved, where it may be executed again.
   */
  lemma WithoutTheLockAnApprovalUnexecutes(t: Tables, row: Row, nonce: Nonce, approver: string)
    requires row in t.requests && t.requests[row].state == Approved && Attempt(row, nonce) !in t.executions
    requires NonceFits(nonce) && Fits(approver, 320)
    ensures var events := ApproverLooks(row, approver) + (ReportLands(row, nonce) + ApproverWrites());
            var after := Exec(Start(false, t), events).committed;
            && row in after.requests && after.requests[row].state == Approved
            && Attempt(row, nonce) in after.executions && after.executions[Attempt(row, nonce)].outcome == Committed
            && !Consistent(after)
  {
    hide Exec, Apply, Consistent;
    var s := Start(false, t);
    ExecConcat(s, ApproverLooks(row, approver), ReportLands(row, nonce) + ApproverWrites());
    ExecTwo(s, Begin(0, ApproveOp(row, approver, 1)), Lock(0));
    var s1 := Exec(s, ApproverLooks(row, approver));
    ExecConcat(s1, ReportLands(row, nonce), ApproverWrites());
    ReportLandsUnlocked(s1, row, nonce);
    var s2 := Exec(s1, ReportLands(row, nonce));
    RecordedAnyway(t, row, nonce, Execution(Committed, Some(0)));
    ApproverWritesUnlocked(s2, row, approver);
    var after := Exec(s2, ApproverWrites()).committed;
    ApprovedAfterACommit(after, row, Attempt(row, nonce));
  }
}
