/** `pilot execute`: fetch, refuse unless approved, run, report. Every early exit is here. */
module Command {
  import opened Prelude
  import opened Ledger
  import opened Store
  import opened Pilot
  import opened Api

  /** How the command ends. `clean` is a zero exit status. */
  datatype Exit =
    | Usage
    | NoSuchReference
    | FetchFailed
    | NotApproved(state: State)
    | NoTarget
    | ReportFailed(outcome: Outcome)
    | Finished(stored: Execution, clean: bool)

  /** The early exits, before anything was sent to the target. */
  predicate SentNothing(exit: Exit) {
    exit.Usage? || exit.NoSuchReference? || exit.FetchFailed? || exit.NotApproved? || exit.NoTarget?
  }

  /** The report was committed and its sender is told otherwise: the COMMIT's answer or the read after it was lost. */
  predicate LandedUnheard(trouble: Trouble) {
    (trouble.At(5) && trouble.landed) || trouble.At(6)
  }

  lemma DoneMeansStored(t: Tables, row: Row, nonce: Nonce, e: Execution)
    ensures var (t', reply) := RecordExecution(t, row, nonce, e);
            reply.Done? ==> reply.value == e && Attempt(row, nonce) in t'.executions && t'.executions[Attempt(row, nonce)] == e
  {
    hide ExecutionFits;
  }

  /**
   The service's RecordExecution over the store's method. Calls 0 to 5 are the store's; 6 is the read
   of the request for the answer, after the report was committed.
   */
  method RecordOverTheWire(hm: Store, row: Row, nonce: Nonce, outcome: WireOutcome, rows: Option<int>, trouble: Trouble)
    returns (code: Code, stored: Option<Execution>)
    modifies hm
    ensures var (after, answer) := RecordCall(old(hm.View()), row, nonce, outcome, rows);
            && (trouble.Healthy? ==> hm.View() == after && code == answer)
            && (code == OK ==> hm.View() == after && answer == OK)
            && (code != OK ==> hm.View() == old(hm.View()) || (LandedUnheard(trouble) && hm.View() == after))
    ensures code == OK <==> stored.Some?
    ensures stored.Some? ==> OutcomeFromWire(outcome) == Some(stored.value.outcome) && stored.value.rows == rows
    ensures stored.Some? ==> Attempt(row, nonce) in hm.executions && hm.executions[Attempt(row, nonce)] == stored.value
  {
    hide Ledger.RecordExecution, Blank;
    stored := None;
    if nonce.NotUtf8? {
      return Internal, None;
    }
    if Blank(nonce.text) {
      return InvalidArgument, None;
    }
    var o := OutcomeFromWire(outcome);
    if o == None || (o.value == Unknown) != (rows == None) {
      return InvalidArgument, None;
    }
    DoneMeansStored(hm.View(), row, nonce, Execution(o.value, rows));
    var reply := hm.RecordExecution(row, nonce, Execution(o.value, rows), trouble);
    if reply.Done? && trouble.At(6) {
      return Internal, None;
    }
    code := CodeOf(reply);
    if reply.Done? { stored := Some(reply.value); }
  }

  lemma CleanIffCommitted(s: Schedule)
    ensures Execute(RowsOf(s), ErrorOf(s)) == ReportOn(s)
    ensures ErrorOf(s) == None <==> ReportOn(s).outcome == Committed
  {
  }

  /** The two tables of outcomes are inverse. */
  lemma WireRoundTrip(o: Outcome)
    ensures OutcomeFromWire(OutcomeToWire(o)) == Some(o)
  {
  }

  /**
   `s` is how the target answers, `opens` whether it can be reached at all, `fetch` what goes wrong
   while the request is read, and `trouble` while the report is stored.
   */
  method ExecuteCommand(hm: Store, target: Target, row: Row, nonce: Nonce, opens: bool, s: Schedule,
                        fetch: Trouble, trouble: Trouble)
    returns (exit: Exit)
    requires !target.open && target.pending == [] && Possible(s)
    modifies hm, target
    // Nothing is sent unless the control plane says approved, and then it is sent once.
    ensures SentNothing(exit) <==>
              row.reference == "" || nonce == Utf8("") || !opens || fetch.At(0) ||
              row !in old(hm.requests) || old(hm.requests)[row].state != Approved
    ensures exit.Usage? <==> row.reference == "" || nonce == Utf8("")
    ensures exit.NotApproved? <==> !exit.Usage? && !fetch.At(0) && row in old(hm.requests) && old(hm.requests)[row].state != Approved
    ensures exit.NotApproved? ==> exit.state == old(hm.requests)[row].state
    ensures SentNothing(exit) ==> hm.View() == old(hm.View()) && target.applied == old(target.applied)
    ensures !SentNothing(exit) ==> target.applied == if Effect(s) then old(target.applied) + [Attempt(row, nonce)] else old(target.applied)
    // What it prints is what stands recorded, and is true of the target.
    ensures exit.Finished? ==> exit.stored == ReportOn(s) && Truthful(exit.stored, Fate(s))
    ensures exit.Finished? && exit.stored.outcome == Committed ==>
              s.StatementRuns? && s.commit.Acknowledged? && exit.stored.rows == Some(s.rows)
    ensures exit.Finished? ==> Attempt(row, nonce) in hm.executions && hm.executions[Attempt(row, nonce)] == exit.stored
    ensures exit.Finished? && exit.clean <==> exit.Finished? && exit.stored.outcome == Committed
    // A report that failed changed nothing, unless it was committed and the answer never came.
    ensures exit.ReportFailed? ==> exit.outcome == ReportOn(s).outcome
    ensures exit.ReportFailed? ==> (hm.View() == old(hm.View()) || LandedUnheard(trouble))
    ensures exit.ReportFailed? && trouble.Healthy? ==>
              RecordCall(old(hm.View()), row, nonce, OutcomeToWire(ReportOn(s).outcome), ReportOn(s).rows).1 != OK
  {
    hide Effect, Fate, Possible, RecordCall, Truthful, ErrorOf, RowsOf, Execute, ReportOn, OutcomeToWire, OutcomeFromWire, Blank;
    if row.reference == "" || nonce == Utf8("") {
      return Usage;
    }
    var got := hm.GetRequest(row.tenant, row.reference, fetch);
    if got.Fault? {
      return FetchFailed;
    }
    if !got.Done? {
      return NoSuchReference;
    }
    if got.value.state != Approved {
      return NotApproved(got.value.state);
    }
    if !opens {
      return NoTarget;
    }
    var rows, err := target.RunOne(Attempt(row, nonce), s);
    var result := Execute(rows, err);
    ReportIsTruthful(s);
    CleanIffCommitted(s);
    CommittedExactlyWhen(s);
    WireRoundTrip(result.outcome);
    var code, stored := RecordOverTheWire(hm, row, nonce, OutcomeToWire(result.outcome), result.rows, trouble);
    if stored == None {
      return ReportFailed(result.outcome);
    }
    exit := Finished(stored.value, err == None);
  }
}
