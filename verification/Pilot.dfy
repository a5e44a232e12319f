/**
 The Pilot: one statement in one transaction against a target that may fail anywhere, and the
 outcome reported for it. What the server does is a schedule of answers, one for each exchange.
 */
module Pilot {
  import opened Prelude
  import opened Ledger

  // ---------------------------------------------------------------- what the server does

  datatype Severity = ERROR | FATAL | PANIC

  /** The English word on the wire. */
  function Spelling(s: Severity): string {
    match s
    case ERROR => "ERROR"
    case FATAL => "FATAL"
    case PANIC => "PANIC"
  }

  /**
   An ErrorResponse. `unlocalised` is the English word, or empty from a server too old to send it;
   `localised` is a word in the server's own language, which says "ERROR" for an ERROR alone.
   */
  datatype ServerError = ServerError(severity: Severity, unlocalised: string, localised: string) {
    predicate Honest() {
      && (unlocalised == "" || unlocalised == Spelling(severity))
      && (localised == "ERROR" ==> severity == ERROR)
    }
  }

  /** How an exchange with the server failed: it answered with an error, or no answer arrived. */
  datatype Failure = Answered(error: ServerError) | Silence

  /** `applied` says whether the effect is in the target, which only the server knows. */
  datatype CommitAnswer = Acknowledged | Failed(failure: Failure, applied: bool)

  /** Every way one call of RunOne can go. */
  datatype Schedule =
    | NoConnection
    | WrongDriver
    | BeginFails(failure: Failure)
    | StatementFails(failure: Failure, rollbackFails: Option<Failure>)
    | StatementRuns(rows: int, commit: CommitAnswer)
    | Unlabelled(rows: int, applied: bool)

  /**
   What PostgreSQL promises: an ERROR in answer to COMMIT is a transaction rolled back, anything
   else leaves its fate open; row counts are not negative.
   */
  predicate Possible(s: Schedule) {
    match s
    case StatementRuns(rows, commit) =>
      rows >= 0 && (commit.Failed? && commit.failure.Answered? ==>
        commit.failure.error.Honest() && (commit.failure.error.severity == ERROR ==> !commit.applied))
    case Unlabelled(rows, _) => rows >= 0
    case _ => true
  }

  /**
   What became of the statement once the server has settled: the number of rows it changed if its effect
   is in the target, nothing if it is not.
   */
  function Fate(s: Schedule): Option<int> {
    match s
    case StatementRuns(rows, commit) => if commit.Acknowledged? || commit.applied then Some(rows) else None
    case Unlabelled(rows, applied) => if applied then Some(rows) else None
    case _ => None
  }

  /** Whether the statement's effect is in the target. */
  predicate Effect(s: Schedule) {
    Fate(s).Some?
  }

  // ---------------------------------------------------------------- RunOne

  datatype Phase = ErrBegin | ErrExec | ErrCommit | ErrRollback

  /** A Go error chain: the phase it is wrapped in, if any, and the first server error inside. */
  datatype Error = Error(phase: Option<Phase>, server: Option<ServerError>)

  function ServerErrorIn(f: Failure): Option<ServerError> {
    if f.Answered? then Some(f.error) else None
  }

  predicate CommitWasRefused(e: Error) {
    e.server.Some? &&
    (if e.server.value.unlocalised == "" then e.server.value.localised else e.server.value.unlocalised) == "ERROR"
  }

  /** What RunOne returns beside the rows. */
  function ErrorOf(s: Schedule): Option<Error> {
    match s
    case NoConnection => Some(Error(Some(ErrBegin), None))
    case WrongDriver => Some(Error(Some(ErrBegin), None))
    case BeginFails(f) => Some(Error(Some(ErrBegin), ServerErrorIn(f)))
    case StatementFails(f, None) => Some(Error(Some(ErrExec), ServerErrorIn(f)))
    case StatementFails(f, Some(r)) =>
      Some(Error(Some(ErrRollback), if r.Answered? then ServerErrorIn(r) else ServerErrorIn(f)))
    case StatementRuns(_, Acknowledged) => None
    case StatementRuns(_, Failed(f, _)) => Some(Error(Some(ErrCommit), ServerErrorIn(f)))
    case Unlabelled(_, _) => Some(Error(None, None))
  }

  function RowsOf(s: Schedule): int {
    if s.StatementRuns? || s.Unlabelled? then s.rows else 0
  }

  /** One connection to a target database, which holds the effects of the statements it committed. */
  class Target {
    var applied: seq<Attempt>
    /** Effects of the open transaction; no COMMIT has settled them. */
    var pending: seq<Attempt>
    var open: bool

    constructor ()
      ensures applied == [] && !open && pending == []
    {
      applied, pending, open := [], [], false;
    }

    /** The server ends the transaction, for good or not. */
    method Settle(keep: bool)
      modifies this
      ensures !open && pending == []
      ensures applied == if keep then old(applied) + old(pending) else old(applied)
    {
      if keep { applied := applied + pending; }
      pending, open := [], false;
    }

    /** BEGIN, the statement, then ROLLBACK or COMMIT, with `s` saying how the server answers each. */
    method RunOne(attempt: Attempt, s: Schedule) returns (rows: int, err: Option<Error>)
      requires !open && pending == []
      modifies this
      ensures err == ErrorOf(s) && rows == RowsOf(s)
      ensures s.StatementRuns? ==> rows == s.rows && (err == None <==> s.commit.Acknowledged?)
      ensures applied == if Effect(s) then old(applied) + [attempt] else old(applied)
      ensures !open && pending == []
    {
      rows := 0;
      if s.NoConnection? || s.WrongDriver? {
        return 0, Some(Error(Some(ErrBegin), None));
      }
      if s.Unlabelled? {
        pending := [attempt];
        Settle(s.applied);
        return s.rows, Some(Error(None, None));
      }
      if s.BeginFails? {
        return 0, Some(Error(Some(ErrBegin), ServerErrorIn(s.failure)));
      }
      open := true;
      if s.StatementFails? {
        // Whether or not the ROLLBACK is answered, the server aborts a transaction that failed.
        Settle(false);
        if s.rollbackFails.Some? {
          var rb := s.rollbackFails.value;
          return 0, Some(Error(Some(ErrRollback), if rb.Answered? then ServerErrorIn(rb) else ServerErrorIn(s.failure)));
        }
        return 0, Some(Error(Some(ErrExec), ServerErrorIn(s.failure)));
      }
      pending := [attempt];
      rows := s.rows;
      match s.commit
      case Acknowledged =>
        Settle(true);
        err := None;
      case Failed(f, took) =>
        Settle(took);
        err := Some(Error(Some(ErrCommit), ServerErrorIn(f)));
    }
  }

  // ---------------------------------------------------------------- Execute

  /** Classifies a run by where it failed. */
  function Execute(rows: int, err: Option<Error>): Execution {
    match err
    case None => Execution(Committed, Some(rows))
    case Some(e) =>
      match e.phase
      case Some(ErrBegin) => Execution(AbortedNotApplied, Some(0))
      case Some(ErrExec) => Execution(AbortedNotApplied, Some(0))
      case Some(ErrRollback) => Execution(Unknown, None)
      case Some(ErrCommit) => if CommitWasRefused(e) then Execution(RolledBack, Some(0)) else Execution(Unknown, None)
      case None => Execution(Unknown, None)
  }

  /** The report on a run that went as `s`. */
  function ReportOn(s: Schedule): Execution {
    Execute(RowsOf(s), ErrorOf(s))
  }

  /**
   Committed means applied, with the very count of rows the server changed; a clean failure means not
   applied, with a count of zero; and a count is absent exactly when nobody knows.
   */
  ghost predicate Truthful(e: Execution, fate: Option<int>) {
    && (e.outcome == Committed ==> fate.Some? && e.rows == fate)
    && (CleanFailure(e.outcome) ==> fate == None && e.rows == Some(0))
    && RowsFit(e)
  }

  /** Over every fault schedule of a target transaction, the report does not lie. */
  lemma ReportIsTruthful(s: Schedule)
    requires Possible(s)
    ensures Truthful(ReportOn(s), Fate(s))
  {
  }

  /** A committed report is exactly that of a statement whose COMMIT was acknowledged, and tells its rows. */
  lemma CommittedExactlyWhen(s: Schedule)
    ensures ReportOn(s).outcome == Committed <==> s.StatementRuns? && s.commit.Acknowledged?
    ensures ReportOn(s).outcome == Committed ==> ReportOn(s).rows == Some(s.rows)
  {
  }

  /**
   Rolled back exactly when COMMIT was answered by an ERROR told in English or spelled alike; aborted
   exactly when nothing was opened or the statement failed and its ROLLBACK did not.
   */
  lemma CleanFailuresExactlyWhen(s: Schedule)
    requires Possible(s)
    ensures ReportOn(s).outcome == RolledBack <==>
              && s.StatementRuns? && s.commit.Failed? && s.commit.failure.Answered?
              && s.commit.failure.error.severity == ERROR && Legible(s.commit.failure.error)
    ensures ReportOn(s).outcome == AbortedNotApplied <==>
              s.NoConnection? || s.WrongDriver? || s.BeginFails? || (s.StatementFails? && s.rollbackFails == None)
  {
  }

  /** The server's own verdict on COMMIT that an answer conveys beyond doubt. */
  predicate Legible(e: ServerError) {
    e.unlocalised != "" || e.localised == "ERROR"
  }

  /**
   Exactly when the report is indeterminate: the ROLLBACK of a failed statement failed, the COMMIT
   was answered by nothing or by something that is not legibly an ERROR, or the failure bears no label.
   */
  lemma IndeterminateExactlyWhen(s: Schedule)
    requires Possible(s)
    ensures ReportOn(s).outcome == Unknown <==>
            || s.Unlabelled?
            || (s.StatementFails? && s.rollbackFails.Some?)
            || (s.StatementRuns? && s.commit.Failed? &&
                !(s.commit.failure.Answered? && s.commit.failure.error.severity == ERROR && Legible(s.commit.failure.error)))
  {
  }

  /** Both fates are possible behind an indeterminate report, so nothing more definite could be said of a lost COMMIT. */
  lemma IndeterminateHidesBothFates(rows: nat)
    ensures var took, lost := StatementRuns(rows, Failed(Silence, true)), StatementRuns(rows, Failed(Silence, false));
            && Possible(took) && Possible(lost) && ReportOn(took) == ReportOn(lost) && ReportOn(took).outcome == Unknown
            && Effect(took) && !Effect(lost)
  {
  }

  /** Reading only the localised severity would call a dying session a refusal; the code reads it last and positively. */
  lemma TranslatedFatalIsNotARefusal(e: ServerError, phase: Option<Phase>)
    requires e.Honest() && e.severity != ERROR
    ensures !CommitWasRefused(Error(phase, Some(e)))
  {
  }
}
