/** The service between callers and the store: it validates, translates vocabularies and delegates. */
module Api {
  import opened Prelude
  import opened Ledger

  datatype Code = OK | InvalidArgument | NotFound | FailedPrecondition | Internal

  datatype WireOutcome = UNSPECIFIED | COMMITTED | ROLLED_BACK | ABORTED_NOT_APPLIED | INDETERMINATE

  function OutcomeToWire(o: Outcome): WireOutcome {
    match o
    case Committed => COMMITTED
    case RolledBack => ROLLED_BACK
    case AbortedNotApplied => ABORTED_NOT_APPLIED
    case Unknown => INDETERMINATE
  }

  function OutcomeFromWire(w: WireOutcome): Option<Outcome> {
    match w
    case UNSPECIFIED => None
    case COMMITTED => Some(Committed)
    case ROLLED_BACK => Some(RolledBack)
    case ABORTED_NOT_APPLIED => Some(AbortedNotApplied)
    case INDETERMINATE => Some(Unknown)
  }

  function CodeOf<T>(r: Reply<T>): Code {
    match r
    case Done(_) => OK
    case NoSuchRequest => NotFound
    case WrongState => FailedPrecondition
    case Fault => Internal
  }

  /** The caller is told its mistakes before the store sees them; the submitter is the service's own. */
  function SubmitCall(t: Tables, tenant: Tenant, drawn: Reference, s: Submission): (Tables, Code) {
    if Blank(s.statement) || Blank(s.target) || Blank(s.role) || Blank(s.reason) || Blank(s.key) then (t, InvalidArgument)
    else var (t', r) := Submit(t, tenant, drawn, s); (t', CodeOf(r))
  }

  function ApproveCall(t: Tables, row: Row, approver: string, stage: nat): (Tables, Code) {
    if Blank(approver) || stage != 1 then (t, InvalidArgument)
    else var (t', r) := Approve(t, row, approver, stage); (t', CodeOf(r))
  }

  /**
   The call as the Pilot makes it. A protobuf string is UTF-8: a nonce that is not cannot be marshalled
   and the call fails before it is sent.
   */
  function RecordCall(t: Tables, row: Row, nonce: Nonce, outcome: WireOutcome, rows: Option<int>): (Tables, Code) {
    if nonce.NotUtf8? then (t, Internal)
    else if Blank(nonce.text) then (t, InvalidArgument)
    else
      match OutcomeFromWire(outcome)
      case None => (t, InvalidArgument)
      case Some(o) =>
        if (o == Unknown) != (rows == None) then (t, InvalidArgument)
        else var (t', r) := RecordExecution(t, row, nonce, Execution(o, rows)); (t', CodeOf(r))
  }

  /** A nonce that reaches the store. */
  predicate Admitted(nonce: Nonce) {
    nonce.Utf8? && !Blank(nonce.text)
  }

  /** A nonce the whole way in accepts: it reaches the store, and fits the column. */
  predicate Usable(nonce: Nonce) {
    Admitted(nonce) && NonceFits(nonce)
  }

  /** A Pilot's report, crossing the wire and back: exactly what the store does with it, if the nonce gets there. */
  lemma ReportsCrossTheWire(t: Tables, row: Row, nonce: Nonce, e: Execution)
    requires RowsFit(e)
    ensures RecordCall(t, row, nonce, OutcomeToWire(e.outcome), e.rows).0
            == if Admitted(nonce) then RecordExecution(t, row, nonce, e).0 else t
    ensures RecordCall(t, row, nonce, OutcomeToWire(e.outcome), e.rows).1 == InvalidArgument <==> nonce.Utf8? && Blank(nonce.text)
  {
    hide RecordExecution, Blank;
  }

  /** Some character is not white space. */
  predicate Says(s: string) {
    exists i | 0 <= i < |s| :: !IsSpace(s[i])
  }

  /** The caller's own mistakes: a field that says nothing, a stage there is not, a nonce or a count that cannot be. */
  lemma MistakesAreTold(t: Tables, tenant: Tenant, drawn: Reference, s: Submission, row: Row, approver: string, stage: nat,
                        nonce: Nonce, outcome: WireOutcome, rows: Option<int>)
    ensures SubmitCall(t, tenant, drawn, s).1 == InvalidArgument <==>
              !(Says(s.statement) && Says(s.target) && Says(s.role) && Says(s.reason) && Says(s.key))
    ensures ApproveCall(t, row, approver, stage).1 == InvalidArgument <==> !Says(approver) || stage != 1
    ensures RecordCall(t, row, nonce, outcome, rows).1 == InvalidArgument <==>
              nonce.Utf8? && (!Says(nonce.text) || outcome == UNSPECIFIED || (outcome == INDETERMINATE) != (rows == None))
  {
    hide Submit, Approve, RecordExecution;
  }

  /**
   What a client is told of a call that is let in: NotFound exactly when the tables have no such request,
   FailedPrecondition exactly when its state, or what is stored under the nonce, stands against it.
   */
  lemma CodesMean(t: Tables, row: Row, approver: string, nonce: Nonce, e: Execution)
    requires RowsFit(e)
    ensures Says(approver) ==> var code := ApproveCall(t, row, approver, 1).1;
              && (code == NotFound <==> row !in t.requests)
              && (code == FailedPrecondition <==> row in t.requests && t.requests[row].state != Pending && t.requests[row].state != Approved)
    ensures nonce.Utf8? && Says(nonce.text) ==> var code := RecordCall(t, row, nonce, OutcomeToWire(e.outcome), e.rows).1;
              && (code == NotFound <==> row !in t.requests)
              && (code == FailedPrecondition <==> row in t.requests && RefusedState(t, Attempt(row, nonce), e))
  {
    hide Approve, RecordExecution, RefusedState;
    AnswersMean(t, row, approver, 1, nonce, e);
  }

  // ---------------------------------------------------------------- what the service lets in

  /** The operations it passes on. */
  predicate LetIn(op: Op) {
    match op
    case SubmitOp(_, _, s) => !Blank(s.statement) && !Blank(s.target) && !Blank(s.role) && !Blank(s.reason) && !Blank(s.key)
    case ApproveOp(_, approver, stage) => !Blank(approver) && stage == 1
    case RecordOp(_, nonce, e) => Admitted(nonce) && (e.outcome == Unknown <==> e.rows == None)
  }

  /** A call made of the service, for what a caller asks. */
  function Call(t: Tables, op: Op): (Tables, Code) {
    match op
    case SubmitOp(tenant, drawn, s) => SubmitCall(t, tenant, drawn, s)
    case ApproveOp(row, approver, stage) => ApproveCall(t, row, approver, stage)
    case RecordOp(row, nonce, e) => RecordCall(t, row, nonce, OutcomeToWire(e.outcome), e.rows)
  }

  function Calls(t: Tables, ops: seq<Op>): Tables {
    if ops == [] then t else Call(Calls(t, ops[..|ops| - 1]), ops[|ops| - 1]).0
  }

  /** What is let in is done as the store does it; what is not changes nothing. */
  lemma CallIsApplyOrNothing(t: Tables, op: Op)
    ensures Call(t, op).0 == if LetIn(op) then Apply(t, op) else t
  {
    hide Blank, Submit, Approve, RecordExecution;
  }

  /**
   Stronger than the tables' own checks: every approval is of stage 1 by somebody, no request lacks a
   statement, target, role, reason or key in more than white space, no execution a nonce that is text.
   */
  ghost predicate Tidy(t: Tables) {
    && (forall row | row in t.requests ::
          var s := t.requests[row].submitted;
          Says(s.statement) && Says(s.target) && Says(s.role) && Says(s.reason) && Says(s.key))
    && (forall a | a in t.approvals :: a.stage == 1 && Says(a.approver))
    && (forall a | a in t.executions :: a.nonce.Utf8? && Says(a.nonce.text))
  }

  lemma LetInSays(op: Op)
    requires LetIn(op)
    ensures match op
            case SubmitOp(_, _, s) => Says(s.statement) && Says(s.target) && Says(s.role) && Says(s.reason) && Says(s.key)
            case ApproveOp(_, approver, stage) => stage == 1 && Says(approver)
            case RecordOp(_, nonce, _) => nonce.Utf8? && Says(nonce.text)
  {
  }

  lemma SubmitKeepsTidy(t: Tables, tenant: Tenant, drawn: Reference, s: Submission)
    requires Tidy(t) && LetIn(SubmitOp(tenant, drawn, s))
    ensures Tidy(Submit(t, tenant, drawn, s).0)
  {
    LetInSays(SubmitOp(tenant, drawn, s));
    hide LetIn, Says, SubmissionFits;
  }

  lemma ApproveKeepsTidy(t: Tables, row: Row, approver: string, stage: nat)
    requires Tidy(t) && LetIn(ApproveOp(row, approver, stage))
    ensures Tidy(Approve(t, row, approver, stage).0)
  {
    LetInSays(ApproveOp(row, approver, stage));
    hide LetIn, Says, ApprovalFits;
  }

  lemma RecordKeepsTidy(t: Tables, row: Row, nonce: Nonce, e: Execution)
    requires Tidy(t) && LetIn(RecordOp(row, nonce, e))
    ensures Tidy(RecordExecution(t, row, nonce, e).0)
  {
    LetInSays(RecordOp(row, nonce, e));
    hide LetIn, Says, ExecutionFits, Follows;
  }

  lemma ApplyKeepsTidy(t: Tables, op: Op)
    requires Tidy(t) && LetIn(op)
    ensures Tidy(Apply(t, op))
  {
    hide LetIn, Tidy, Submit, Approve, RecordExecution;
    match op
    case SubmitOp(tenant, drawn, s) => SubmitKeepsTidy(t, tenant, drawn, s);
    case ApproveOp(row, approver, stage) => ApproveKeepsTidy(t, row, approver, stage);
    case RecordOp(row, nonce, e) => RecordKeepsTidy(t, row, nonce, e);
  }

  /** In every run of calls, whatever is asked of the service: no approval at another stage or by nobody, nothing blank stored. */
  lemma {:induction false} EveryRunOfCallsIsTidy(tenants: set<Tenant>, ops: seq<Op>)
    ensures Tidy(Calls(Empty(tenants), ops))
  {
    if ops != [] {
      hide LetIn, Call, Apply, Tidy;
      var before := Calls(Empty(tenants), ops[..|ops| - 1]);
      EveryRunOfCallsIsTidy(tenants, ops[..|ops| - 1]);
      CallIsApplyOrNothing(before, ops[|ops| - 1]);
      if LetIn(ops[|ops| - 1]) { ApplyKeepsTidy(before, ops[|ops| - 1]); }
    }
  }

  lemma OkIsRecorded(t: Tables, row: Row, nonce: Nonce, e: Execution)
    requires Attempt(row, nonce) in t.executions ==>
               row in t.requests && Accounted(t, row) && ExecutionFits(nonce, t.executions[Attempt(row, nonce)])
    ensures RecordExecution(t, row, nonce, e).1.Done? <==>
            var after := RecordExecution(t, row, nonce, e).0;
            && Attempt(row, nonce) in after.executions && after.executions[Attempt(row, nonce)] == e
            && (Attempt(row, nonce) in t.executions || (row in t.requests && t.requests[row].state == Approved))
  {
    hide ExecutionFits;
    if Attempt(row, nonce) in t.executions {
      RepeatAgrees(t, row, nonce, e);
    }
  }

  /**
   In every run the service answers OK to a report exactly when, afterwards, that very outcome and
   count stand recorded under a nonce that is text and not blank, and the nonce was either known
   already or found its request approved.
   */
  lemma OkMeansRecorded(tenants: set<Tenant>, ops: seq<Op>, row: Row, nonce: Nonce, outcome: WireOutcome, rows: Option<int>)
    ensures var t := Run(Empty(tenants), ops);
            var (t', code) := RecordCall(t, row, nonce, outcome, rows);
            var attempt := Attempt(row, nonce);
            code == OK <==>
              && Admitted(nonce) && OutcomeFromWire(outcome).Some?
              && attempt in t'.executions && t'.executions[attempt] == Execution(OutcomeFromWire(outcome).value, rows)
              && (attempt in t.executions || (row in t.requests && t.requests[row].state == Approved))
  {
    hide Blank, Accounted, Fits, RecordExecution, Run, NonceFits, Ledger.Backed, Indexed;
    var t := Run(Empty(tenants), ops);
    EveryRunIsConsistent(tenants, ops);
    if OutcomeFromWire(outcome).Some? {
      var e := Execution(OutcomeFromWire(outcome).value, rows);
      OkIsRecorded(t, row, nonce, e);
      if !RowsFit(e) && Attempt(row, nonce) in t.executions {
        RepeatAgrees(t, row, nonce, e);
      }
    }
  }
}
