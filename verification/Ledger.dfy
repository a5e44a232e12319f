/**
 The Harbourmaster's three tables and the operations on them, each taken as one
 atomic step. Store.dfy ties the step-by-step methods to these operations, and
 Transactions.dfy shows that concurrent transactions amount to them.
 */
module Ledger {
  import opened Prelude

  type Tenant = string
  type Reference = string

  /** The bytes of a command-line argument: some text, or bytes that are no text because they are not UTF-8. */
  datatype Nonce = Utf8(text: string) | NotUtf8(bytes: string)

  /** The seven states of a request; the operations here produce four of them. */
  datatype State = Pending | Verifying | Approved | Refused | Expired | Executed | Indeterminate

  datatype Outcome = Committed | RolledBack | AbortedNotApplied | Unknown

  datatype Row = Row(tenant: Tenant, reference: Reference)

  datatype Submission = Submission(statement: string, target: string, role: string,
                                   submitter: string, reason: string, key: string)

  datatype Request = Request(submitted: Submission, state: State)

  datatype Approval = Approval(row: Row, stage: nat, approver: string)

  /** `Unknown` stands for the outcome spelled `indeterminate`. */
  datatype Execution = Execution(outcome: Outcome, rows: Option<int>)

  datatype Attempt = Attempt(row: Row, nonce: Nonce)

  datatype KeyOf = KeyOf(tenant: Tenant, key: string)

  /** `byKey` is the unique index on (tenant_id, idempotency_key). */
  datatype Tables = Tables(
    tenants: set<Tenant>,
    requests: map<Row, Request>,
    byKey: map<KeyOf, Reference>,
    approvals: set<Approval>,
    executions: map<Attempt, Execution>)

  datatype Reply<+T> = Done(value: T) | NoSuchRequest | WrongState | Fault

  // ---------------------------------------------------------------- row checks

  /**
   CHECK (length(btrim(s)) BETWEEN 1 AND bound): some character is not a space, and no two such
   characters are further apart than the bound allows.
   */
  predicate Fits(s: string, bound: nat) {
    && (exists i | 0 <= i < |s| :: s[i] != ' ')
    && (forall i, j | 0 <= i <= j < |s| && s[i] != ' ' && s[j] != ' ' :: j - i < bound)
  }

  predicate SubmissionFits(reference: Reference, s: Submission) {
    && Fits(reference, 128) && Fits(s.statement, 100000) && Fits(s.reason, 4000) && Fits(s.target, 128)
    && Fits(s.role, 128) && Fits(s.submitter, 320) && Fits(s.key, 128)
  }

  predicate ApprovalFits(stage: nat, approver: string) {
    1 <= stage <= 64 && Fits(approver, 320)
  }

  predicate RowsFit(e: Execution) {
    && (e.outcome == Unknown <==> e.rows == None)
    && (e.rows.Some? ==> e.rows.value >= 0)
  }

  /** A text column holds text, within its bounds. */
  predicate NonceFits(nonce: Nonce) {
    nonce.Utf8? && Fits(nonce.text, 128)
  }

  predicate ExecutionFits(nonce: Nonce, e: Execution) {
    NonceFits(nonce) && RowsFit(e)
  }

  /** btrim: without the spaces at either end. */
  function TrimLeft(s: string): string {
    if s != "" && s[0] == ' ' then TrimLeft(s[1..]) else s
  }

  function Trim(s: string): string {
    if s != "" && s[|s| - 1] == ' ' then Trim(s[..|s| - 1]) else TrimLeft(s)
  }

  lemma {:induction false} TrimmedLeft(s: string) returns (n: nat)
    ensures n <= |s| && TrimLeft(s) == s[n..] && (forall i | 0 <= i < n :: s[i] == ' ') && (n < |s| ==> s[n] != ' ')
    decreases |s|
  {
    if s != "" && s[0] == ' ' {
      var m := TrimmedLeft(s[1..]);
      n := m + 1;
      assert s[1..][m..] == s[n..];
      assert forall i | 1 <= i < n :: s[i] == s[1..][i - 1];
    } else {
      n := 0;
      assert s[0..] == s;
    }
  }

  /** What is left is a stretch of the text between spaces, and begins and ends with something else. */
  lemma {:induction false} Trimmed(s: string) returns (from: nat, to: nat)
    ensures from <= to <= |s| && Trim(s) == s[from..to]
    ensures forall i | 0 <= i < |s| && !(from <= i < to) :: s[i] == ' '
    ensures from < to ==> s[from] != ' ' && s[to - 1] != ' '
    decreases |s|
  {
    hide TrimLeft;
    if s != "" && s[|s| - 1] == ' ' {
      var init := s[..|s| - 1];
      from, to := Trimmed(init);
      assert init[from..to] == s[from..to];
      assert forall i | 0 <= i < |init| :: s[i] == init[i];
    } else {
      from := TrimmedLeft(s);
      to := |s|;
      assert s[from..to] == s[from..];
    }
  }

  /** The check on a column, as the schema writes it: the trimmed text is not empty and within the bound. */
  lemma FitsMeansTrimmed(s: string, bound: nat)
    ensures Fits(s, bound) <==> 1 <= |Trim(s)| <= bound
  {
    var from, to := Trimmed(s);
    if from < to && Fits(s, bound) {
      assert s[from] != ' ' && s[to - 1] != ' ';
    }
  }

  /** The checks of the schema, column by column. */
  lemma RowsAsChecked(reference: Reference, s: Submission, stage: nat, approver: string, nonce: Nonce, e: Execution)
    ensures SubmissionFits(reference, s) <==>
              && 1 <= |Trim(reference)| <= 128 && 1 <= |Trim(s.statement)| <= 100000 && 1 <= |Trim(s.reason)| <= 4000
              && 1 <= |Trim(s.target)| <= 128 && 1 <= |Trim(s.role)| <= 128 && 1 <= |Trim(s.submitter)| <= 320 && 1 <= |Trim(s.key)| <= 128
    ensures ApprovalFits(stage, approver) <==> 1 <= stage <= 64 && 1 <= |Trim(approver)| <= 320
    ensures ExecutionFits(nonce, e) <==>
              && nonce.Utf8? && 1 <= |Trim(nonce.text)| <= 128
              && ((e.outcome == Unknown) == (e.rows == None)) && (e.rows.Some? ==> e.rows.value >= 0)
  {
    hide Fits, Trim;
    FitsMeansTrimmed(reference, 128);
    FitsMeansTrimmed(s.statement, 100000);
    FitsMeansTrimmed(s.reason, 4000);
    FitsMeansTrimmed(s.target, 128);
    FitsMeansTrimmed(s.role, 128);
    FitsMeansTrimmed(s.submitter, 320);
    FitsMeansTrimmed(s.key, 128);
    FitsMeansTrimmed(approver, 320);
    if nonce.Utf8? { FitsMeansTrimmed(nonce.text, 128); }
  }

  // ---------------------------------------------------------------- operations

  function Follows(outcome: Outcome): State {
    match outcome
    case Committed => Executed
    case Unknown => Indeterminate
    case RolledBack => Approved
    case AbortedNotApplied => Approved
  }

  predicate Terminal(s: State) {
    s == Executed || s == Indeterminate
  }

  function WithState(t: Tables, row: Row, s: State): Tables
    requires row in t.requests
  {
    t.(requests := t.requests[row := t.requests[row].(state := s)])
  }

  function Submit(t: Tables, tenant: Tenant, drawn: Reference, s: Submission): (Tables, Reply<Reference>) {
    var index, row := KeyOf(tenant, s.key), Row(tenant, drawn);
    if !SubmissionFits(drawn, s) then (t, Fault)
    else if index in t.byKey then (t, Done(t.byKey[index]))
    else if row in t.requests || tenant !in t.tenants then (t, Fault)
    else (t.(requests := t.requests[row := Request(s, Pending)], byKey := t.byKey[index := drawn]), Done(drawn))
  }

  function Approve(t: Tables, row: Row, approver: string, stage: nat): (Tables, Reply<()>) {
    if row !in t.requests then (t, NoSuchRequest)
    else if t.requests[row].state !in {Pending, Approved} then (t, WrongState)
    else if !ApprovalFits(stage, approver) then (t, Fault)
    else (WithState(t, row, Approved).(approvals := t.approvals + {Approval(row, stage, approver)}), Done(()))
  }

  function RecordExecution(t: Tables, row: Row, nonce: Nonce, e: Execution): (Tables, Reply<Execution>) {
    var attempt := Attempt(row, nonce);
    if row !in t.requests then (t, NoSuchRequest)
    else
      var state := t.requests[row].state;
      if state != Approved && (!Terminal(state) || attempt !in t.executions) then (t, WrongState)
      else if !ExecutionFits(nonce, e) then (t, Fault)
      else if attempt in t.executions && t.executions[attempt] != e then (t, WrongState)
      else
        var stored := t.(executions := t.executions[attempt := e]);
        (if state == Approved then WithState(stored, row, Follows(e.outcome)) else stored, Done(e))
  }

  datatype Op =
    | SubmitOp(tenant: Tenant, drawn: Reference, submission: Submission)
    | ApproveOp(row: Row, approver: string, stage: nat)
    | RecordOp(row: Row, nonce: Nonce, execution: Execution)

  function Apply(t: Tables, op: Op): Tables {
    match op
    case SubmitOp(tenant, drawn, s) => Submit(t, tenant, drawn, s).0
    case ApproveOp(row, approver, stage) => Approve(t, row, approver, stage).0
    case RecordOp(row, nonce, e) => RecordExecution(t, row, nonce, e).0
  }

  function Run(t: Tables, ops: seq<Op>): Tables {
    if ops == [] then t else Apply(Run(t, ops[..|ops| - 1]), ops[|ops| - 1])
  }

  function Empty(tenants: set<Tenant>): Tables {
    Tables(tenants, map[], map[], {}, map[])
  }

  // ---------------------------------------------------------------- the whole-run invariant

  predicate CleanFailure(o: Outcome) {
    o == RolledBack || o == AbortedNotApplied
  }

  /** Exactly one attempt on `row` ended as `o`, and none as `never`. */
  ghost predicate ExactlyOne(t: Tables, row: Row, o: Outcome, never: Outcome) {
    && (exists a :: a in t.executions && a.row == row && t.executions[a].outcome == o)
    && (forall a, b | a in t.executions && b in t.executions && a.row == row && b.row == row
                    && t.executions[a].outcome == o && t.executions[b].outcome == o :: a == b)
    && (forall a | a in t.executions && a.row == row :: t.executions[a].outcome != never)
  }

  /** What a request's state says about the executions and approvals recorded for it. */
  ghost predicate Accounted(t: Tables, row: Row)
    requires row in t.requests
  {
    match t.requests[row].state
    case Pending => forall a | a in t.executions :: a.row != row
    case Approved => forall a | a in t.executions && a.row == row :: CleanFailure(t.executions[a].outcome)
    case Executed => ExactlyOne(t, row, Committed, Unknown)
    case Indeterminate => ExactlyOne(t, row, Unknown, Committed)
    case _ => false
  }

  ghost predicate AllAccounted(t: Tables) {
    forall row | row in t.requests :: Accounted(t, row)
  }

  /** Every request past pending has an approval, and every approval names a request. */
  ghost predicate Backed(t: Tables) {
    && (forall row | row in t.requests && t.requests[row].state != Pending :: exists a :: a in t.approvals && a.row == row)
    && (forall a | a in t.approvals :: a.row in t.requests)
  }

  ghost predicate ExecutionsLegal(t: Tables) {
    forall a | a in t.executions :: a.row in t.requests && ExecutionFits(a.nonce, t.executions[a])
  }

  /** The request's key leads to the request. */
  predicate Listed(t: Tables, row: Row)
    requires row in t.requests
  {
    var k := KeyOf(row.tenant, t.requests[row].submitted.key);
    row.tenant in t.tenants && k in t.byKey && t.byKey[k] == row.reference
  }

  /** What the key leads to is a request with that key. */
  predicate Filed(t: Tables, k: KeyOf)
    requires k in t.byKey
  {
    var row := Row(k.tenant, t.byKey[k]);
    row in t.requests && t.requests[row].submitted.key == k.key
  }

  /** The index on keys and the requests are two views of one bijection, inside known tenants. */
  ghost predicate Indexed(t: Tables) {
    && (forall row | row in t.requests :: Listed(t, row))
    && (forall k | k in t.byKey :: Filed(t, k))
  }

  ghost predicate Consistent(t: Tables) {
    AllAccounted(t) && Backed(t) && ExecutionsLegal(t) && Indexed(t)
  }

  /** A request whose own executions did not change is accounted for as before. */
  lemma AccountedFrame(t: Tables, t': Tables, row: Row)
    requires row in t.requests && row in t'.requests && t'.requests[row].state == t.requests[row].state
    requires forall a: Attempt | a.row == row :: (a in t.executions <==> a in t'.executions)
               && (a in t.executions ==> t'.executions[a] == t.executions[a])
    requires Accounted(t, row)
    ensures Accounted(t', row)
  {
    if t.requests[row].state == Executed {
      var a :| a in t.executions && a.row == row && t.executions[a].outcome == Committed;
      assert a in t'.executions;
    } else if t.requests[row].state == Indeterminate {
      var a :| a in t.executions && a.row == row && t.executions[a].outcome == Unknown;
      assert a in t'.executions;
    }
  }

  lemma SubmitKeepsIndexed(t: Tables, tenant: Tenant, drawn: Reference, s: Submission)
    requires Indexed(t)
    ensures Indexed(Submit(t, tenant, drawn, s).0)
  {
    hide SubmissionFits;
    var t' := Submit(t, tenant, drawn, s).0;
    if t' != t {
      hide Submit;
      NewRequest(t, tenant, drawn, s);
      var k, row := KeyOf(tenant, s.key), Row(tenant, drawn);
      forall r | r in t'.requests ensures Listed(t', r) {
        if r != row { assert Listed(t, r); }
      }
      forall j | j in t'.byKey ensures Filed(t', j) {
        if j != k { assert Filed(t, j); }
      }
    }
  }

  /** What a submission that stores anything stores. */
  lemma NewRequest(t: Tables, tenant: Tenant, drawn: Reference, s: Submission)
    requires Submit(t, tenant, drawn, s).0 != t
    ensures KeyOf(tenant, s.key) !in t.byKey && Row(tenant, drawn) !in t.requests && tenant in t.tenants
    ensures Submit(t, tenant, drawn, s).0
            == t.(requests := t.requests[Row(tenant, drawn) := Request(s, Pending)], byKey := t.byKey[KeyOf(tenant, s.key) := drawn])
  {
    hide SubmissionFits;
  }

  /** The index looks at submissions only. */
  lemma SameSubmissions(t: Tables, t': Tables)
    requires Indexed(t) && t'.tenants == t.tenants && t'.byKey == t.byKey && t'.requests.Keys == t.requests.Keys
    requires forall row | row in t.requests :: t'.requests[row].submitted == t.requests[row].submitted
    ensures Indexed(t')
  {
    forall row | row in t'.requests ensures Listed(t', row) { assert Listed(t, row); }
    forall k | k in t'.byKey ensures Filed(t', k) { assert Filed(t, k); }
  }

  lemma SubmitKeepsAccounts(t: Tables, tenant: Tenant, drawn: Reference, s: Submission)
    requires AllAccounted(t) && Backed(t) && ExecutionsLegal(t)
    ensures var t' := Submit(t, tenant, drawn, s).0; AllAccounted(t') && Backed(t') && ExecutionsLegal(t')
  {
    hide Fits, SubmissionFits, ExecutionFits;
    var t' := Submit(t, tenant, drawn, s).0;
    forall row | row in t'.requests
      ensures Accounted(t', row)
    {
      if row in t.requests { AccountedFrame(t, t', row); }
    }
  }

  lemma ApproveKeepsAccounts(t: Tables, row: Row, approver: string, stage: nat)
    requires AllAccounted(t)
    ensures AllAccounted(Approve(t, row, approver, stage).0)
  {
    hide Fits, ApprovalFits;
    var (t', r) := Approve(t, row, approver, stage);
    if r.Done? {
      forall other | other in t'.requests
        ensures Accounted(t', other)
      {
        assert Accounted(t, other);
        if other != row { AccountedFrame(t, t', other); }
      }
    }
  }

  lemma ApproveKeepsBacked(t: Tables, row: Row, approver: string, stage: nat)
    requires Backed(t)
    ensures Backed(Approve(t, row, approver, stage).0)
  {
    hide Fits, ApprovalFits;
    var (t', r) := Approve(t, row, approver, stage);
    if r.Done? {
      var approval := Approval(row, stage, approver);
      assert approval in t'.approvals && approval.row == row;
      forall other | other in t'.requests && t'.requests[other].state != Pending
        ensures exists a :: a in t'.approvals && a.row == other
      {
        if other != row {
          var a :| a in t.approvals && a.row == other;
          assert a in t'.approvals;
        }
      }
    }
  }

  lemma ApproveKeepsIndexed(t: Tables, row: Row, approver: string, stage: nat)
    requires Indexed(t)
    ensures Indexed(Approve(t, row, approver, stage).0)
  {
    hide ApprovalFits, Indexed;
    SameSubmissions(t, Approve(t, row, approver, stage).0);
  }

  lemma ApproveKeepsExecutionsLegal(t: Tables, row: Row, approver: string, stage: nat)
    requires ExecutionsLegal(t)
    ensures ExecutionsLegal(Approve(t, row, approver, stage).0)
  {
    hide Fits, ApprovalFits, ExecutionFits;
  }

  /** The request reported on: its account follows its new state. */
  lemma RecordAccountsForItsRow(t: Tables, row: Row, nonce: Nonce, e: Execution)
    requires row in t.requests && Accounted(t, row) && RecordExecution(t, row, nonce, e).1.Done?
    ensures Accounted(RecordExecution(t, row, nonce, e).0, row)
  {
    hide ExecutionFits;
    var t' := RecordExecution(t, row, nonce, e).0;
    var attempt := Attempt(row, nonce);
    if t.requests[row].state == Approved {
      assert attempt in t'.executions && t'.executions[attempt].outcome == e.outcome;
      assert forall a | a in t'.executions && a.row == row && a != attempt ::
          a in t.executions && CleanFailure(t'.executions[a].outcome);
    } else {
      assert t'.executions == t.executions;
      AccountedFrame(t, t', row);
    }
  }

  /** Only the state of its own request changes, and only if it was past pending. */
  lemma RecordKeepsBacked(t: Tables, row: Row, nonce: Nonce, e: Execution)
    requires Backed(t)
    ensures Backed(RecordExecution(t, row, nonce, e).0)
  {
    hide Fits, ExecutionFits;
    var t' := RecordExecution(t, row, nonce, e).0;
    forall other | other in t'.requests && t'.requests[other].state != Pending
      ensures exists a :: a in t'.approvals && a.row == other
    {
      assert t.requests[other].state != Pending;
      var a :| a in t.approvals && a.row == other;
      assert a in t'.approvals;
    }
  }

  lemma RecordKeepsIndexed(t: Tables, row: Row, nonce: Nonce, e: Execution)
    requires Indexed(t)
    ensures Indexed(RecordExecution(t, row, nonce, e).0)
  {
    hide ExecutionFits, Indexed;
    SameSubmissions(t, RecordExecution(t, row, nonce, e).0);
  }

  lemma RecordKeepsExecutionsLegal(t: Tables, row: Row, nonce: Nonce, e: Execution)
    requires ExecutionsLegal(t)
    ensures ExecutionsLegal(RecordExecution(t, row, nonce, e).0)
  {
    hide Fits;
  }

  lemma RecordKeepsOtherAccounts(t: Tables, row: Row, nonce: Nonce, e: Execution, other: Row)
    requires other != row && other in t.requests && Accounted(t, other)
    ensures other in RecordExecution(t, row, nonce, e).0.requests
    ensures Accounted(RecordExecution(t, row, nonce, e).0, other)
  {
    var t' := RecordExecution(t, row, nonce, e).0;
    AccountedFrame(t, t', other);
  }

  lemma RecordKeepsAccounts(t: Tables, row: Row, nonce: Nonce, e: Execution)
    requires AllAccounted(t)
    ensures AllAccounted(RecordExecution(t, row, nonce, e).0)
  {
    hide Fits, ExecutionFits, Accounted;
    var t' := RecordExecution(t, row, nonce, e).0;
    if RecordExecution(t, row, nonce, e).1.Done? {
      forall other | other in t'.requests
        ensures Accounted(t', other)
      {
        if other == row {
          RecordAccountsForItsRow(t, row, nonce, e);
        } else {
          RecordKeepsOtherAccounts(t, row, nonce, e, other);
        }
      }
    }
  }

  lemma ApplyKeepsConsistent(t: Tables, op: Op)
    requires Consistent(t)
    ensures Consistent(Apply(t, op))
  {
    hide Submit, Approve, RecordExecution, AllAccounted, Backed, ExecutionsLegal, Indexed;
    match op
    case SubmitOp(tenant, drawn, s) =>
      SubmitKeepsAccounts(t, tenant, drawn, s);
      SubmitKeepsIndexed(t, tenant, drawn, s);
    case ApproveOp(row, approver, stage) =>
      ApproveKeepsAccounts(t, row, approver, stage);
      ApproveKeepsBacked(t, row, approver, stage);
      ApproveKeepsIndexed(t, row, approver, stage);
      ApproveKeepsExecutionsLegal(t, row, approver, stage);
    case RecordOp(row, nonce, e) =>
      RecordKeepsAccounts(t, row, nonce, e);
      RecordKeepsBacked(t, row, nonce, e);
      RecordKeepsIndexed(t, row, nonce, e);
      RecordKeepsExecutionsLegal(t, row, nonce, e);
  }

  lemma {:induction false} RunKeepsConsistent(t: Tables, ops: seq<Op>)
    requires Consistent(t)
    ensures Consistent(Run(t, ops))
  {
    if ops != [] {
      RunKeepsConsistent(t, ops[..|ops| - 1]);
      ApplyKeepsConsistent(Run(t, ops[..|ops| - 1]), ops[|ops| - 1]);
    }
  }

  /** Every store any run reaches, late duplicates and refusals included, accounts for itself. */
  lemma EveryRunIsConsistent(tenants: set<Tenant>, ops: seq<Op>)
    ensures Consistent(Run(Empty(tenants), ops))
  {
    RunKeepsConsistent(Empty(tenants), ops);
  }

  // ---------------------------------------------------------------- what never changes

  /** What one step may do to a request that exists: nothing to the submission, nothing to a terminal state. */
  ghost predicate Extends(t: Tables, t': Tables) {
    && t.tenants == t'.tenants
    && (forall row | row in t.requests ::
          && row in t'.requests
          && t'.requests[row].submitted == t.requests[row].submitted
          && (Terminal(t.requests[row].state) ==> t'.requests[row].state == t.requests[row].state))
    && (forall k | k in t.byKey :: k in t'.byKey && t'.byKey[k] == t.byKey[k])
    && t.approvals <= t'.approvals
    && (forall a | a in t.executions :: a in t'.executions && t'.executions[a] == t.executions[a])
  }

  lemma SubmitExtends(t: Tables, tenant: Tenant, drawn: Reference, s: Submission)
    ensures Extends(t, Submit(t, tenant, drawn, s).0)
  {
    hide SubmissionFits;
  }

  lemma ApproveExtends(t: Tables, row: Row, approver: string, stage: nat)
    ensures Extends(t, Approve(t, row, approver, stage).0)
  {
    hide ApprovalFits;
  }

  lemma RecordExtends(t: Tables, row: Row, nonce: Nonce, e: Execution)
    ensures Extends(t, RecordExecution(t, row, nonce, e).0)
  {
    hide ExecutionFits;
  }

  lemma ApplyExtends(t: Tables, op: Op)
    ensures Extends(t, Apply(t, op))
  {
    hide Submit, Approve, RecordExecution, Extends;
    match op
    case SubmitOp(tenant, drawn, s) => SubmitExtends(t, tenant, drawn, s);
    case ApproveOp(row, approver, stage) => ApproveExtends(t, row, approver, stage);
    case RecordOp(row, nonce, e) => RecordExtends(t, row, nonce, e);
  }

  lemma ExtendsIsTransitive(a: Tables, b: Tables, c: Tables)
    requires Extends(a, b) && Extends(b, c)
    ensures Extends(a, c)
  {
  }

  /**
   Over any run from any store: a submission is never rewritten, a terminal state is never left,
   a key keeps its reference, and a nonce keeps its first outcome and row count.
   */
  lemma {:induction false} RunExtends(t: Tables, ops: seq<Op>)
    ensures Extends(t, Run(t, ops))
  {
    if ops != [] {
      RunExtends(t, ops[..|ops| - 1]);
      ApplyExtends(Run(t, ops[..|ops| - 1]), ops[|ops| - 1]);
      ExtendsIsTransitive(t, Run(t, ops[..|ops| - 1]), Run(t, ops));
    }
  }

  /** Two requests of one tenant never share an idempotency key. */
  lemma OneRequestPerKey(tenants: set<Tenant>, ops: seq<Op>, a: Row, b: Row)
    requires a in Run(Empty(tenants), ops).requests && b in Run(Empty(tenants), ops).requests
    requires a.tenant == b.tenant
    requires Run(Empty(tenants), ops).requests[a].submitted.key == Run(Empty(tenants), ops).requests[b].submitted.key
    ensures a == b
  {
    EveryRunIsConsistent(tenants, ops);
  }

  /**
   Submitting again under a key, after any run, returns the first reference and stores nothing,
   whatever the second submission says.
   */
  lemma {:induction false} SubmitIsIdempotent(t: Tables, tenant: Tenant, drawn: Reference, s: Submission, ops: seq<Op>,
                           drawn': Reference, s': Submission)
    requires Submit(t, tenant, drawn, s).1.Done?
    requires s'.key == s.key && SubmissionFits(drawn', s')
    ensures var later := Run(Submit(t, tenant, drawn, s).0, ops);
            Submit(later, tenant, drawn', s') == (later, Done(Submit(t, tenant, drawn, s).1.value))
  {
    RunExtends(Submit(t, tenant, drawn, s).0, ops);
  }

  ghost predicate SameRequests(t: Tables, t': Tables, tenant: Tenant) {
    forall row: Row | row.tenant == tenant :: (row in t.requests <==> row in t'.requests)
      && (row in t.requests ==> t'.requests[row] == t.requests[row])
  }

  ghost predicate SameExecutions(t: Tables, t': Tables, tenant: Tenant) {
    forall a: Attempt | a.row.tenant == tenant :: (a in t.executions <==> a in t'.executions)
      && (a in t.executions ==> t'.executions[a] == t.executions[a])
  }

  /** Everything a tenant can see of the tables. */
  ghost predicate SameFor(t: Tables, t': Tables, tenant: Tenant) {
    && SameRequests(t, t', tenant) && SameExecutions(t, t', tenant)
    && (forall k: KeyOf | k.tenant == tenant :: (k in t.byKey <==> k in t'.byKey)
          && (k in t.byKey ==> t'.byKey[k] == t.byKey[k]))
    && (forall a: Approval | a.row.tenant == tenant :: a in t.approvals <==> a in t'.approvals)
  }

  function TenantOf(op: Op): Tenant {
    if op.SubmitOp? then op.tenant else op.row.tenant
  }

  lemma SubmitIsIsolated(t: Tables, tenant: Tenant, drawn: Reference, s: Submission, other: Tenant)
    requires other != tenant
    ensures SameFor(t, Submit(t, tenant, drawn, s).0, other)
  {
    hide SubmissionFits;
  }

  lemma ApproveIsIsolated(t: Tables, row: Row, approver: string, stage: nat, other: Tenant)
    requires other != row.tenant
    ensures SameFor(t, Approve(t, row, approver, stage).0, other)
  {
    hide ApprovalFits;
  }

  lemma RecordLeavesRequests(t: Tables, row: Row, nonce: Nonce, e: Execution, other: Tenant)
    requires other != row.tenant
    ensures SameRequests(t, RecordExecution(t, row, nonce, e).0, other)
  {
    hide ExecutionFits, Follows;
  }

  lemma RecordLeavesExecutions(t: Tables, row: Row, nonce: Nonce, e: Execution, other: Tenant)
    requires other != row.tenant
    ensures SameExecutions(t, RecordExecution(t, row, nonce, e).0, other)
  {
    hide ExecutionFits, Follows;
  }

  lemma RecordIsIsolated(t: Tables, row: Row, nonce: Nonce, e: Execution, other: Tenant)
    requires other != row.tenant
    ensures SameFor(t, RecordExecution(t, row, nonce, e).0, other)
  {
    hide ExecutionFits, SameRequests, SameExecutions;
    RecordLeavesRequests(t, row, nonce, e, other);
    RecordLeavesExecutions(t, row, nonce, e, other);
  }

  lemma SameForIsReflexive(t: Tables, tenant: Tenant)
    ensures SameFor(t, t, tenant)
  {
  }

  lemma SameForIsTransitive(a: Tables, b: Tables, c: Tables, tenant: Tenant)
    requires SameFor(a, b, tenant) && SameFor(b, c, tenant)
    ensures SameFor(a, c, tenant)
  {
  }

  /** No run of other tenants' operations touches a row, key, approval or execution of this one. */
  lemma {:induction false} TenantsAreIsolated(t: Tables, ops: seq<Op>, tenant: Tenant)
    requires forall op | op in ops :: TenantOf(op) != tenant
    ensures SameFor(t, Run(t, ops), tenant)
  {
    hide Submit, Approve, RecordExecution, SameFor;
    if ops == [] {
      SameForIsReflexive(t, tenant);
    } else {
      var before, op := Run(t, ops[..|ops| - 1]), ops[|ops| - 1];
      assert op in ops;
      TenantsAreIsolated(t, ops[..|ops| - 1], tenant);
      match op {
        case SubmitOp(other, drawn, s) => SubmitIsIsolated(before, other, drawn, s, tenant);
        case ApproveOp(row, approver, stage) => ApproveIsIsolated(before, row, approver, stage, tenant);
        case RecordOp(row, nonce, e) => RecordIsIsolated(before, row, nonce, e, tenant);
      }
      SameForIsTransitive(t, before, Run(t, ops), tenant);
    }
  }

  /** An operation that does not answer Done leaves all the tables as they were. */
  lemma RefusalChangesNothing(t: Tables, row: Row, approver: string, stage: nat, nonce: Nonce, e: Execution,
                              tenant: Tenant, drawn: Reference, s: Submission)
    ensures !Approve(t, row, approver, stage).1.Done? ==> Approve(t, row, approver, stage).0 == t
    ensures !RecordExecution(t, row, nonce, e).1.Done? ==> RecordExecution(t, row, nonce, e).0 == t
    ensures !Submit(t, tenant, drawn, s).1.Done? ==> Submit(t, tenant, drawn, s).0 == t
  {
  }

  lemma RepeatAgrees(t: Tables, row: Row, nonce: Nonce, e: Execution)
    requires Attempt(row, nonce) in t.executions && row in t.requests && Accounted(t, row)
    requires ExecutionFits(nonce, t.executions[Attempt(row, nonce)])
    ensures RecordExecution(t, row, nonce, e)
            == (t, if e == t.executions[Attempt(row, nonce)] then Done(e)
                   else if ExecutionFits(nonce, e) then WrongState else Fault)
  {
    hide Fits, ExecutionFits;
    assert t.requests[row].state == Approved || Terminal(t.requests[row].state);
    if e == t.executions[Attempt(row, nonce)] {
      assert t.executions[Attempt(row, nonce) := e] == t.executions;
      if t.requests[row].state == Approved {
        assert t.requests[row := t.requests[row].(state := Approved)] == t.requests;
      }
    }
  }

  /**
   In every run: a repeated nonce is acknowledged exactly when the report agrees with what is stored,
   and agreeing or not, it changes nothing at all.
   */
  lemma RepeatIsAcknowledgedIffItAgrees(tenants: set<Tenant>, ops: seq<Op>, row: Row, nonce: Nonce, e: Execution)
    requires Attempt(row, nonce) in Run(Empty(tenants), ops).executions
    ensures var t := Run(Empty(tenants), ops);
            var stored := t.executions[Attempt(row, nonce)];
            && RecordExecution(t, row, nonce, e).0 == t
            && (if e == stored then RecordExecution(t, row, nonce, e).1 == Done(stored)
                else !RecordExecution(t, row, nonce, e).1.Done?)
  {
    hide RecordExecution, Accounted, ExecutionFits;
    EveryRunIsConsistent(tenants, ops);
    RepeatAgrees(Run(Empty(tenants), ops), row, nonce, e);
  }

  /** Which answer means what, of an approval and of a report. */
  lemma AnswersMean(t: Tables, row: Row, approver: string, stage: nat, nonce: Nonce, e: Execution)
    ensures var r := Approve(t, row, approver, stage).1;
            && (r == NoSuchRequest <==> row !in t.requests)
            && (r == WrongState <==> row in t.requests && t.requests[row].state != Pending && t.requests[row].state != Approved)
    ensures var r, a := RecordExecution(t, row, nonce, e).1, Attempt(row, nonce);
            && (r == NoSuchRequest <==> row !in t.requests)
            && (r == WrongState <==> row in t.requests && RefusedState(t, a, e))
  {
    hide ExecutionFits, ApprovalFits;
  }

  /** A report is refused for the state of things: never approved, finished without it, or contradicting what is stored. */
  predicate RefusedState(t: Tables, a: Attempt, e: Execution)
    requires a.row in t.requests
  {
    var state := t.requests[a.row].state;
    || state !in {Approved, Executed, Indeterminate}
    || (state != Approved && a !in t.executions)
    || (ExecutionFits(a.nonce, e) && a in t.executions && t.executions[a] != e)
  }

  /** A first submission stores just what was submitted, pending, and indexes it. */
  lemma FirstSubmissionIsStored(t: Tables, tenant: Tenant, drawn: Reference, s: Submission)
    requires KeyOf(tenant, s.key) !in t.byKey && Row(tenant, drawn) !in t.requests && tenant in t.tenants && SubmissionFits(drawn, s)
    ensures var (t', r) := Submit(t, tenant, drawn, s);
            && r == Done(drawn)
            && t' == t.(requests := t.requests[Row(tenant, drawn) := Request(s, Pending)], byKey := t.byKey[KeyOf(tenant, s.key) := drawn])
  {
    hide SubmissionFits;
  }

  /**
   An approval that fits is taken while the request is pending or approved, adds that one approval and
   makes the request approved; and made again after any run that left it approved, it changes nothing.
   */
  lemma {:induction false} ApprovalIsIdempotent(t: Tables, row: Row, approver: string, stage: nat, ops: seq<Op>)
    requires row in t.requests && t.requests[row].state in {Pending, Approved} && ApprovalFits(stage, approver)
    ensures var (t', r) := Approve(t, row, approver, stage);
            && r == Done(())
            && t' == t.(requests := t.requests[row := Request(t.requests[row].submitted, Approved)],
                        approvals := t.approvals + {Approval(row, stage, approver)})
            && var later := Run(t', ops);
               (row in later.requests && later.requests[row].state == Approved ==>
                  Approve(later, row, approver, stage) == (later, Done(())))
  {
    hide ApprovalFits, Submit, RecordExecution;
    var t' := Approve(t, row, approver, stage).0;
    RunExtends(t', ops);
    var later := Run(t', ops);
    hide Run;
    if row in later.requests && later.requests[row].state == Approved {
      assert Approval(row, stage, approver) in later.approvals;
      assert later.approvals + {Approval(row, stage, approver)} == later.approvals;
      assert later.requests[row := later.requests[row].(state := Approved)] == later.requests;
    }
  }

  /** A nonce never seen before is recorded exactly when the request is approved and the row is legal. */
  lemma FreshNonceNeedsApproval(t: Tables, row: Row, nonce: Nonce, e: Execution)
    requires Attempt(row, nonce) !in t.executions
    ensures RecordExecution(t, row, nonce, e).1.Done?
            <==> row in t.requests && t.requests[row].state == Approved && ExecutionFits(nonce, e)
  {
  }

  /** Replays the four reports that once un-executed a request; the third no longer moves it, the fourth is refused. */
  lemma LateDuplicateDoesNotUnExecute(t: Tables, row: Row, n1: Nonce, n2: Nonce, n3: Nonce, changed: nat)
    requires row in t.requests && t.requests[row].state == Approved
    requires n1 != n2 && n1 != n3 && n2 != n3 && NonceFits(n1) && NonceFits(n2) && NonceFits(n3)
    requires forall n | n in {n1, n2, n3} :: Attempt(row, n) !in t.executions
    ensures var clean, done := Execution(AbortedNotApplied, Some(0)), Execution(Committed, Some(changed));
            var executed := Run(t, [RecordOp(row, n1, clean), RecordOp(row, n2, done)]);
            && row in executed.requests && executed.requests[row].state == Executed
            && RecordExecution(executed, row, n1, clean) == (executed, Done(clean))
            && RecordExecution(executed, row, n3, done) == (executed, WrongState)
  {
    hide RecordExecution, NonceFits;
    var clean, done := Execution(AbortedNotApplied, Some(0)), Execution(Committed, Some(changed));
    var ops := [RecordOp(row, n1, clean), RecordOp(row, n2, done)];
    assert ops[..1][..0] == [] && ops[..1] == [ops[0]];
    assert Run(t, ops[..1]) == Apply(t, ops[0]);
    FirstReport(t, row, n1, clean);
    var first := Apply(t, ops[0]);
    FirstReport(first, row, n2, done);
    var executed := Apply(first, ops[1]);
    TerminalRepeat(executed, row, n1, clean);
    TerminalRefusesNew(executed, row, n3, done);
  }

  /** The first report of a nonce on an approved request. */
  lemma FirstReport(t: Tables, row: Row, nonce: Nonce, e: Execution)
    requires row in t.requests && t.requests[row].state == Approved && Attempt(row, nonce) !in t.executions
    requires ExecutionFits(nonce, e)
    ensures RecordExecution(t, row, nonce, e)
            == (WithState(t, row, Follows(e.outcome)).(executions := t.executions[Attempt(row, nonce) := e]), Done(e))
  {
    hide ExecutionFits;
  }

  lemma TerminalRepeat(t: Tables, row: Row, nonce: Nonce, e: Execution)
    requires row in t.requests && Terminal(t.requests[row].state) && ExecutionFits(nonce, e)
    requires Attempt(row, nonce) in t.executions && t.executions[Attempt(row, nonce)] == e
    ensures RecordExecution(t, row, nonce, e) == (t, Done(e))
  {
    hide ExecutionFits;
    assert t.executions[Attempt(row, nonce) := e] == t.executions;
  }

  lemma TerminalRefusesNew(t: Tables, row: Row, nonce: Nonce, e: Execution)
    requires row in t.requests && Terminal(t.requests[row].state) && Attempt(row, nonce) !in t.executions
    ensures RecordExecution(t, row, nonce, e) == (t, WrongState)
  {
    hide ExecutionFits;
  }
}
