/**
 Clients, Pilots, the control plane's tables and the target, with Pilots dying where they stand.
 What the tables say is compared with what the target really contains.
 */
module EndToEnd {
  import opened Prelude
  import opened Ledger
  import opened Pilot
  import opened Api

  /**
   One invocation of the Pilot: it has read an approved request, or it has also run the statement. It
   counts as in flight until its report has been answered or is lost for good: a report may still land
   after the Pilot has stopped waiting for it, and until then another attempt would overlap.
   */
  datatype Process = Fetched(attempt: Attempt) | Ran(attempt: Attempt, schedule: Schedule)

  /** A statement sent to the target, and how that went. */
  datatype Past = Past(attempt: Attempt, schedule: Schedule)

  datatype World = World(tables: Tables, pilots: map<nat, Process>, history: seq<Past>)

  datatype Event =
    | Ask(op: Op)                                // a client submits or approves
    | Fetch(pilot: nat, row: Row, nonce: Nonce)  // a Pilot starts and reads the request
    | RunIt(pilot: nat, schedule: Schedule)      // it runs the statement against the target
    | Report(pilot: nat)                         // its report arrives, and is recorded or refused
    | Die(pilot: nat)                            // it dies, or gives up, and no report of it will ever arrive
    | Duplicate(index: nat)                      // a report that was recorded arrives once more

  /** The one nonce the command refuses before it does anything. */
  const NO_NONCE := Utf8("")

  function Record(t: Tables, attempt: Attempt, s: Schedule): Tables {
    RecordCall(t, attempt.row, attempt.nonce, OutcomeToWire(ReportOn(s).outcome), ReportOn(s).rows).0
  }

  function Next(w: World, ev: Event): World {
    match ev
    case Ask(op) => if op.RecordOp? then w else w.(tables := Apply(w.tables, op))
    case Fetch(p, row, nonce) =>
      if p in w.pilots || nonce == NO_NONCE || row !in w.tables.requests || w.tables.requests[row].state != Approved then w
      else w.(pilots := w.pilots[p := Fetched(Attempt(row, nonce))])
    case RunIt(p, s) =>
      if p !in w.pilots || !w.pilots[p].Fetched? || !Possible(s) then w
      else w.(pilots := w.pilots[p := Ran(w.pilots[p].attempt, s)], history := w.history + [Past(w.pilots[p].attempt, s)])
    case Report(p) =>
      if p !in w.pilots || !w.pilots[p].Ran? then w
      else w.(tables := Record(w.tables, w.pilots[p].attempt, w.pilots[p].schedule), pilots := w.pilots - {p})
    case Die(p) => w.(pilots := w.pilots - {p})
    case Duplicate(i) =>
      if i >= |w.history| || w.history[i].attempt !in w.tables.executions then w
      else w.(tables := Record(w.tables, w.history[i].attempt, w.history[i].schedule))
  }

  function Exec(w: World, events: seq<Event>): World {
    if events == [] then w else Next(Exec(w, events[..|events| - 1]), events[|events| - 1])
  }

  function Start(t: Tables): World {
    World(t, map[], [])
  }

  /** How often the request's statement has taken effect in the target. */
  function Applied(w: World, row: Row): nat {
    |set i: nat | i < |w.history| && w.history[i].attempt.row == row && Effect(w.history[i].schedule)|
  }

  predicate InFlight(w: World, row: Row) {
    exists p :: p in w.pilots && w.pilots[p].attempt.row == row
  }

  // ---------------------------------------------------------------- every stored execution is true of some attempt

  ghost predicate Witnessed(w: World, a: Attempt, e: Execution) {
    exists i :: 0 <= i < |w.history| && w.history[i].attempt == a && ReportOn(w.history[i].schedule) == e
  }

  ghost predicate Backed(w: World) {
    && (forall i | 0 <= i < |w.history| :: Possible(w.history[i].schedule))
    && (forall p | p in w.pilots && w.pilots[p].Ran? :: Past(w.pilots[p].attempt, w.pilots[p].schedule) in w.history)
    && (forall a | a in w.tables.executions :: Witnessed(w, a, w.tables.executions[a]))
  }

  /** What one report does to the executions: nothing, or it adds itself under a new nonce. */
  lemma RecordAdds(t: Tables, attempt: Attempt, s: Schedule)
    requires Possible(s)
    ensures var t' := Record(t, attempt, s);
            t'.executions == t.executions || (attempt !in t.executions && t'.executions == t.executions[attempt := ReportOn(s)])
  {
    ReportIsTruthful(s);
    ReportsCrossTheWire(t, attempt.row, attempt.nonce, ReportOn(s));
    if attempt in t.executions && t.executions[attempt] == ReportOn(s) {
      assert t.executions[attempt := ReportOn(s)] == t.executions;
    }
  }

  lemma NextKeepsBacked(w: World, ev: Event)
    requires Backed(w)
    ensures Backed(Next(w, ev))
  {
    hide Record, Apply, ReportOn, Possible;
    var w' := Next(w, ev);
    assert forall x | x in w.history :: x in w'.history;
    forall a, e | Witnessed(w, a, e)
      ensures Witnessed(w', a, e)
    {
      var i :| 0 <= i < |w.history| && w.history[i].attempt == a && ReportOn(w.history[i].schedule) == e;
      assert w'.history[i] == w.history[i];
    }
    if ev.Report? && w' != w {
      var past := Past(w.pilots[ev.pilot].attempt, w.pilots[ev.pilot].schedule);
      var i :| 0 <= i < |w.history| && w.history[i] == past;
      RecordAdds(w.tables, past.attempt, past.schedule);
      assert Witnessed(w', past.attempt, ReportOn(past.schedule));
    } else if ev.Duplicate? && w' != w {
      RecordAdds(w.tables, w.history[ev.index].attempt, w.history[ev.index].schedule);
    } else if ev.Ask? && w' != w {
      AskingRecordsNothing(w.tables, ev.op);
    }
  }

  lemma AskingRecordsNothing(t: Tables, op: Op)
    requires !op.RecordOp?
    ensures Apply(t, op).executions == t.executions
  {
  }

  lemma {:induction false} ExecKeepsBacked(w: World, events: seq<Event>)
    requires Backed(w)
    ensures Backed(Exec(w, events))
  {
    if events != [] {
      ExecKeepsBacked(w, events[..|events| - 1]);
      NextKeepsBacked(Exec(w, events[..|events| - 1]), events[|events| - 1]);
    }
  }

  /** In every run, overlaps, reused nonces and deaths included, what is stored was true of an attempt with that nonce. */
  lemma StoredExecutionsAreTrue(tenants: set<Tenant>, events: seq<Event>, a: Attempt)
    requires a in Exec(Start(Empty(tenants)), events).tables.executions
    ensures var w := Exec(Start(Empty(tenants)), events);
            exists i :: 0 <= i < |w.history| && w.history[i].attempt == a
                        && ReportOn(w.history[i].schedule) == w.tables.executions[a]
                        && Truthful(w.tables.executions[a], Fate(w.history[i].schedule))
  {
    var w := Exec(Start(Empty(tenants)), events);
    ExecKeepsBacked(Start(Empty(tenants)), events);
    assert Witnessed(w, a, w.tables.executions[a]);
    var i :| 0 <= i < |w.history| && w.history[i].attempt == a && ReportOn(w.history[i].schedule) == w.tables.executions[a];
    ReportIsTruthful(w.history[i].schedule);
  }

  // ---------------------------------------------------------------- at most once

  /** The four things the operator has to see to, each of which can be waived. */
  datatype Rules = Rules(alone: bool, freshNonce: bool, usableNonce: bool, noDeathAfterCommit: bool)

  const ALL := Rules(true, true, true, true)

  /** `alone`: one attempt on a request at a time. */
  predicate Obeys(rules: Rules, w: World, ev: Event) {
    match ev
    case Fetch(p, row, nonce) =>
      && (rules.alone ==> !InFlight(w, row))
      && (rules.freshNonce ==> forall i | 0 <= i < |w.history| :: w.history[i].attempt != Attempt(row, nonce))
      && (rules.usableNonce ==> Usable(nonce))
    case Die(p) => rules.noDeathAfterCommit && p in w.pilots && w.pilots[p].Ran? ==> !Effect(w.pilots[p].schedule)
    case _ => true
  }

  predicate Disciplined(rules: Rules, w: World, events: seq<Event>) {
    events == [] ||
    (Disciplined(rules, w, events[..|events| - 1]) && Obeys(rules, Exec(w, events[..|events| - 1]), events[|events| - 1]))
  }

  /** An attempt that was sent is recorded, or about to be, or came to nothing. */
  ghost predicate Settled(w: World, past: Past) {
    || (past.attempt in w.tables.executions && w.tables.executions[past.attempt] == ReportOn(past.schedule))
    || (exists p :: p in w.pilots && w.pilots[p] == Ran(past.attempt, past.schedule))
    || !Effect(past.schedule)
  }

  ghost predicate PilotsSound(w: World) {
    && (forall p | p in w.pilots ::
          && w.pilots[p].attempt.row in w.tables.requests
          && w.tables.requests[w.pilots[p].attempt.row].state == Approved
          && Usable(w.pilots[p].attempt.nonce)
          && w.pilots[p].attempt !in w.tables.executions
          && (w.pilots[p].Fetched? ==> forall i | 0 <= i < |w.history| :: w.history[i].attempt != w.pilots[p].attempt))
    && (forall p, q | p in w.pilots && q in w.pilots && w.pilots[p].attempt.row == w.pilots[q].attempt.row :: p == q)
  }

  ghost predicate HistorySound(w: World) {
    && (forall i | 0 <= i < |w.history| :: Settled(w, w.history[i]))
    && (forall i, j | 0 <= i < j < |w.history| :: w.history[i].attempt != w.history[j].attempt)
  }

  ghost predicate Sound(w: World) {
    Consistent(w.tables) && Backed(w) && PilotsSound(w) && HistorySound(w)
  }

  /** Entries stay settled when executions only grow and the pilots concerned stay. */
  lemma HistoryStaysSettled(w: World, w': World)
    requires HistorySound(w) && w'.history == w.history
    requires forall a | a in w.tables.executions :: a in w'.tables.executions && w'.tables.executions[a] == w.tables.executions[a]
    requires forall p | p in w.pilots && w.pilots[p].Ran? ::
               || (p in w'.pilots && w'.pilots[p] == w.pilots[p])
               || !Effect(w.pilots[p].schedule)
               || (w.pilots[p].attempt in w'.tables.executions
                   && w'.tables.executions[w.pilots[p].attempt] == ReportOn(w.pilots[p].schedule))
    ensures HistorySound(w')
  {
    hide ReportOn, Effect;
    forall i | 0 <= i < |w'.history|
      ensures Settled(w', w'.history[i])
    {
      assert Settled(w, w.history[i]);
    }
  }

  lemma AskKeepsPilotsSound(w: World, op: Op)
    requires PilotsSound(w) && !op.RecordOp?
    ensures PilotsSound(Next(w, Ask(op))) && Next(w, Ask(op)).tables.executions == w.tables.executions
  {
    hide SubmissionFits, ApprovalFits, Usable;
  }

  lemma AskKeepsSound(w: World, op: Op)
    requires Sound(w) && !op.RecordOp?
    ensures Sound(Next(w, Ask(op)))
  {
    hide Apply, Consistent, Backed, PilotsSound, HistorySound;
    NextKeepsBacked(w, Ask(op));
    ApplyKeepsConsistent(w.tables, op);
    AskKeepsPilotsSound(w, op);
    HistoryStaysSettled(w, Next(w, Ask(op)));
  }

  lemma FetchKeepsSound(w: World, p: nat, row: Row, nonce: Nonce)
    requires Sound(w) && Obeys(ALL, w, Fetch(p, row, nonce))
    ensures Sound(Next(w, Fetch(p, row, nonce)))
  {
    hide Consistent, Usable, HistorySound, PilotsSound, Backed;
    var w' := Next(w, Fetch(p, row, nonce));
    NextKeepsBacked(w, Fetch(p, row, nonce));
    if w' != w {
      HistoryStaysSettled(w, w');
      if Attempt(row, nonce) in w.tables.executions {
        RecordedWasSent(w, Attempt(row, nonce));
        assert false;
      }
      FetchKeepsPilotsSound(w, p, row, nonce);
    }
  }

  lemma FetchKeepsPilotsSound(w: World, p: nat, row: Row, nonce: Nonce)
    requires PilotsSound(w) && Obeys(ALL, w, Fetch(p, row, nonce)) && Attempt(row, nonce) !in w.tables.executions
    ensures PilotsSound(Next(w, Fetch(p, row, nonce)))
  {
    hide Usable;
  }

  lemma RecordedWasSent(w: World, a: Attempt)
    requires Backed(w) && a in w.tables.executions
    ensures exists i :: 0 <= i < |w.history| && w.history[i].attempt == a
  {
    assert Witnessed(w, a, w.tables.executions[a]);
  }

  lemma RunKeepsSound(w: World, p: nat, s: Schedule)
    requires Sound(w)
    ensures Sound(Next(w, RunIt(p, s)))
  {
    hide Consistent, Usable, Possible, Effect, ReportOn, Backed, HistorySound, PilotsSound;
    NextKeepsBacked(w, RunIt(p, s));
    RunKeepsPilotsSound(w, p, s);
    RunKeepsHistorySound(w, p, s);
  }

  lemma RunKeepsPilotsSound(w: World, p: nat, s: Schedule)
    requires PilotsSound(w)
    ensures PilotsSound(Next(w, RunIt(p, s)))
  {
    hide Usable, Possible;
  }

  /** The new entry is settled by its own Pilot, and is nobody else's. */
  lemma RunKeepsHistorySound(w: World, p: nat, s: Schedule)
    requires PilotsSound(w) && HistorySound(w)
    ensures HistorySound(Next(w, RunIt(p, s)))
  {
    hide Usable, Possible, Effect, ReportOn;
    var w' := Next(w, RunIt(p, s));
    if w' != w {
      assert w'.pilots[p] == Ran(w.pilots[p].attempt, s);
      forall i | 0 <= i < |w'.history|
        ensures Settled(w', w'.history[i])
      {
        if i < |w.history| {
          assert Settled(w, w.history[i]);
          if q :| q in w.pilots && w.pilots[q] == Ran(w.history[i].attempt, w.history[i].schedule) {
            assert q != p && w'.pilots[q] == w.pilots[q];
          }
        }
      }
    }
  }

  lemma DieKeepsSound(w: World, p: nat)
    requires Sound(w) && Obeys(ALL, w, Die(p))
    ensures Sound(Next(w, Die(p)))
  {
    hide Consistent, Usable, HistorySound, Effect;
    NextKeepsBacked(w, Die(p));
    HistoryStaysSettled(w, Next(w, Die(p)));
  }

  /** The first report of an attempt on an approved request is recorded, and nothing else of it changes. */
  lemma FirstReportLands(t: Tables, attempt: Attempt, s: Schedule)
    requires Possible(s) && attempt.row in t.requests && t.requests[attempt.row].state == Approved
    requires attempt !in t.executions && Usable(attempt.nonce)
    ensures Record(t, attempt, s) == RecordExecution(t, attempt.row, attempt.nonce, ReportOn(s)).0
    ensures Record(t, attempt, s).executions == t.executions[attempt := ReportOn(s)]
    ensures forall row | row in t.requests && row != attempt.row ::
              row in Record(t, attempt, s).requests && Record(t, attempt, s).requests[row] == t.requests[row]
  {
    ReportIsTruthful(s);
    ReportsCrossTheWire(t, attempt.row, attempt.nonce, ReportOn(s));
  }

  lemma ReportKeepsPilotsSound(w: World, p: nat)
    requires PilotsSound(w) && p in w.pilots && w.pilots[p].Ran? && Possible(w.pilots[p].schedule)
    ensures PilotsSound(Next(w, Report(p)))
  {
    hide Record, Possible, ReportOn, Usable;
    FirstReportLands(w.tables, w.pilots[p].attempt, w.pilots[p].schedule);
  }

  lemma ReportKeepsSound(w: World, p: nat)
    requires Sound(w)
    ensures Sound(Next(w, Report(p)))
  {
    hide Consistent, Usable, Record, RecordExecution, ReportOn, HistorySound, Possible, Effect;
    var w' := Next(w, Report(p));
    NextKeepsBacked(w, Report(p));
    if w' != w {
      var attempt, s := w.pilots[p].attempt, w.pilots[p].schedule;
      assert Past(attempt, s) in w.history;
      FirstReportLands(w.tables, attempt, s);
      ApplyKeepsConsistent(w.tables, RecordOp(attempt.row, attempt.nonce, ReportOn(s)));
      HistoryStaysSettled(w, w');
      ReportKeepsPilotsSound(w, p);
    }
  }

  /** A duplicate changes nothing: the nonce is taken, and a request past approved cannot move. */
  lemma DuplicateIsHarmless(w: World, i: nat)
    requires Sound(w)
    ensures Next(w, Duplicate(i)) == w
  {
    hide Accounted, Usable, RecordExecution, ReportOn, Fits, Blank;
    if i < |w.history| && w.history[i].attempt in w.tables.executions {
      var a, s := w.history[i].attempt, w.history[i].schedule;
      ReportIsTruthful(s);
      ReportsCrossTheWire(w.tables, a.row, a.nonce, ReportOn(s));
      RepeatAgrees(w.tables, a.row, a.nonce, ReportOn(s));
    }
  }

  lemma NextKeepsSound(w: World, ev: Event)
    requires Sound(w) && Obeys(ALL, w, ev)
    ensures Sound(Next(w, ev))
  {
    match ev
    case Ask(op) => if !op.RecordOp? { AskKeepsSound(w, op); }
    case Fetch(p, row, nonce) => FetchKeepsSound(w, p, row, nonce);
    case RunIt(p, s) => RunKeepsSound(w, p, s);
    case Report(p) => ReportKeepsSound(w, p);
    case Die(p) => DieKeepsSound(w, p);
    case Duplicate(i) => DuplicateIsHarmless(w, i);
  }

  lemma {:induction false} ExecKeepsSound(w: World, events: seq<Event>)
    requires Sound(w) && Disciplined(ALL, w, events)
    ensures Sound(Exec(w, events))
  {
    if events != [] {
      ExecKeepsSound(w, events[..|events| - 1]);
      NextKeepsSound(Exec(w, events[..|events| - 1]), events[|events| - 1]);
    }
  }

  function Effects(w: World, row: Row): set<nat> {
    set i: nat | i < |w.history| && w.history[i].attempt.row == row && Effect(w.history[i].schedule)
  }

  lemma AtMostOneElement(s: set<nat>)
    requires forall i, j | i in s && j in s :: i == j
    ensures |s| <= 1 && (s != {} ==> |s| == 1)
  {
    if i :| i in s { assert s == {i}; }
  }

  /** An effect on a request is a recorded attempt's, not a clean failure's, or that of the one in flight. */
  lemma EffectsAreAccountedFor(w: World, row: Row, i: nat)
    requires Sound(w) && i in Effects(w, row)
    ensures var past := w.history[i];
            || (past.attempt in w.tables.executions && !CleanFailure(w.tables.executions[past.attempt].outcome))
            || (exists p :: p in w.pilots && w.pilots[p] == Ran(past.attempt, past.schedule))
  {
    assert Settled(w, w.history[i]);
    ReportIsTruthful(w.history[i].schedule);
  }

  /** Of a request's executions at most one is not a clean failure, and it has moved the request. */
  lemma OneMovedIt(t: Tables, row: Row, a: Attempt, b: Attempt)
    requires Consistent(t) && row in t.requests && a in t.executions && b in t.executions && a.row == row && b.row == row
    requires !CleanFailure(t.executions[a].outcome) && !CleanFailure(t.executions[b].outcome)
    ensures a == b && Terminal(t.requests[row].state)
  {
    hide Ledger.Backed, ExecutionsLegal, Indexed;
    assert Accounted(t, row);
  }

  /** Two attempts on a request that both took effect are one. */
  lemma EffectsMeet(w: World, row: Row, i: nat, j: nat)
    requires Sound(w) && row in w.tables.requests && i in Effects(w, row) && j in Effects(w, row)
    ensures w.history[i].attempt == w.history[j].attempt
  {
    hide Consistent, Backed, HistorySound, Usable, ReportOn, Effect, CleanFailure;
    EffectsAreAccountedFor(w, row, i);
    EffectsAreAccountedFor(w, row, j);
    var a, b, t := w.history[i].attempt, w.history[j].attempt, w.tables;
    assert a.row == row && b.row == row;
    if a in t.executions && !CleanFailure(t.executions[a].outcome) { OneMovedIt(t, row, a, a); }
    if b in t.executions && !CleanFailure(t.executions[b].outcome) { OneMovedIt(t, row, b, b); }
    if a in t.executions && b in t.executions && !CleanFailure(t.executions[a].outcome) && !CleanFailure(t.executions[b].outcome) {
      OneMovedIt(t, row, a, b);
    }
  }

  lemma EffectsAreOne(w: World, row: Row)
    requires Sound(w) && row in w.tables.requests
    ensures forall i, j | i in Effects(w, row) && j in Effects(w, row) :: i == j
    ensures Effects(w, row) != {} && !InFlight(w, row) ==> Terminal(w.tables.requests[row].state)
  {
    hide Consistent, Backed, PilotsSound, Settled;
    forall i, j | i in Effects(w, row) && j in Effects(w, row)
      ensures i == j
    {
      EffectsMeet(w, row, i, j);
    }
    if i :| i in Effects(w, row) && !InFlight(w, row) { LandedEffectIsTerminal(w, row, i); }
  }

  lemma LandedEffectIsTerminal(w: World, row: Row, i: nat)
    requires Sound(w) && row in w.tables.requests && i in Effects(w, row) && !InFlight(w, row)
    ensures Terminal(w.tables.requests[row].state)
  {
    hide Consistent, Backed, HistorySound, PilotsSound, ReportOn, CleanFailure;
    EffectsAreAccountedFor(w, row, i);
    assert w.history[i].attempt.row == row;
    OneMovedIt(w.tables, row, w.history[i].attempt, w.history[i].attempt);
  }

  lemma ExecutedTookEffect(w: World, row: Row)
    requires Sound(w) && row in w.tables.requests && w.tables.requests[row].state == Executed
    ensures Effects(w, row) != {}
  {
    hide PilotsSound, HistorySound, Consistent, Witnessed, ReportOn, Fate, Possible;
    var a := CommittedAttempt(w.tables, row);
    assert Witnessed(w, a, w.tables.executions[a]);
    var i := Witness(w, a, w.tables.executions[a]);
    ReportIsTruthful(w.history[i].schedule);
    assert i in Effects(w, row);
  }

  /** The committed execution behind an executed request. */
  lemma CommittedAttempt(t: Tables, row: Row) returns (a: Attempt)
    requires Consistent(t) && row in t.requests && t.requests[row].state == Executed
    ensures a in t.executions && a.row == row && t.executions[a].outcome == Committed
  {
    hide Ledger.Backed, ExecutionsLegal, Indexed;
    assert Accounted(t, row);
    a :| a in t.executions && a.row == row && t.executions[a].outcome == Committed;
  }

  lemma Witness(w: World, a: Attempt, e: Execution) returns (i: nat)
    requires Witnessed(w, a, e)
    ensures i < |w.history| && w.history[i].attempt == a && ReportOn(w.history[i].schedule) == e
  {
    i :| i < |w.history| && w.history[i].attempt == a && ReportOn(w.history[i].schedule) == e;
  }

  /**
   In every run that keeps all four rules, a statement has been applied no times while its request is
   pending, and no times while it is approved with no attempt in flight; exactly once when it is
   executed; at most once when it is indeterminate, and at most once ever.
   */
  lemma AtMostOnce(tenants: set<Tenant>, events: seq<Event>, row: Row)
    requires Disciplined(ALL, Start(Empty(tenants)), events)
    requires row in Exec(Start(Empty(tenants)), events).tables.requests
    ensures var w := Exec(Start(Empty(tenants)), events);
            var state := w.tables.requests[row].state;
            && Applied(w, row) <= 1
            && (state == Pending ==> Applied(w, row) == 0)
            && (state == Approved && !InFlight(w, row) ==> Applied(w, row) == 0)
            && (state == Executed ==> Applied(w, row) == 1)
            && (InFlight(w, row) ==> state == Approved)
  {
    var w := Exec(Start(Empty(tenants)), events);
    ExecKeepsSound(Start(Empty(tenants)), events);
    EffectsAreOne(w, row);
    AtMostOneElement(Effects(w, row));
    assert Applied(w, row) == |Effects(w, row)|;
    if w.tables.requests[row].state == Executed { ExecutedTookEffect(w, row); }
  }

  // ---------------------------------------------------------------- each rule is needed, and for just what

  /** A table with one approved request on which nothing was recorded. */
  predicate Ready(t: Tables, row: Row) {
    && row in t.requests && t.requests[row].state == Approved
    && forall a | a in t.executions :: a.row != row
  }

  lemma StartIsDisciplined(rules: Rules, w: World)
    ensures Disciplined(rules, w, []) && Exec(w, []) == w
  {
  }

  lemma ExecOne(w: World, events: seq<Event>, ev: Event)
    ensures Exec(w, events + [ev]) == Next(Exec(w, events), ev)
    ensures forall rules :: Disciplined(rules, w, events + [ev]) <==>
              Disciplined(rules, w, events) && Obeys(rules, Exec(w, events), ev)
  {
    hide Next, Obeys;
    assert (events + [ev])[..|events|] == events && (events + [ev])[|events|] == ev;
  }

  lemma {:induction false} ExecConcat(rules: Rules, w: World, a: seq<Event>, b: seq<Event>)
    ensures Exec(w, a + b) == Exec(Exec(w, a), b)
    ensures Disciplined(rules, w, a + b) <==> Disciplined(rules, w, a) && Disciplined(rules, Exec(w, a), b)
  {
    hide Next, Obeys;
    if b == [] {
      assert a + b == a;
    } else {
      var b', ev := b[..|b| - 1], b[|b| - 1];
      assert b == b' + [ev] && a + b == a + b' + [ev];
      ExecConcat(rules, w, a, b');
      ExecOne(w, a + b', ev);
      ExecOne(Exec(w, a), b', ev);
    }
  }

  /** Every Ready table with the bad runs from it can be reached from nothing: submit, then approve. */
  lemma ReadyIsReachable(tenant: Tenant, drawn: Reference, s: Submission, approver: string)
    requires SubmissionFits(drawn, s) && Fits(approver, 320)
    ensures var row := Row(tenant, drawn);
            var events := [Ask(SubmitOp(tenant, drawn, s))] + [Ask(ApproveOp(row, approver, 1))];
            exists t :: Ready(t, row) && Exec(Start(Empty({tenant})), events) == Start(t)
                        && Disciplined(ALL, Start(Empty({tenant})), events)
  {
    hide Fits, SubmissionFits, Exec, Disciplined;
    var w0, row := Start(Empty({tenant})), Row(tenant, drawn);
    var submit, approve := Ask(SubmitOp(tenant, drawn, s)), Ask(ApproveOp(row, approver, 1));
    StartIsDisciplined(ALL, w0);
    ExecOne(w0, [], submit);
    assert [] + [submit] == [submit];
    ExecOne(w0, [submit], approve);
    var t := Approve(Submit(Empty({tenant}), tenant, drawn, s).0, row, approver, 1).0;
    assert Ready(t, row) && Exec(w0, [submit] + [approve]) == Start(t);
  }

  /** So each of the runs below, and its standing under the rules, is also that of a run from nothing. */
  lemma RunsFromNothing(tenant: Tenant, drawn: Reference, s: Submission, approver: string, rules: Rules, es: seq<Event>)
    requires SubmissionFits(drawn, s) && Fits(approver, 320)
    ensures var row, w0 := Row(tenant, drawn), Start(Empty({tenant}));
            var before := [Ask(SubmitOp(tenant, drawn, s))] + [Ask(ApproveOp(row, approver, 1))];
            exists t :: && Ready(t, row) && Exec(w0, before + es) == Exec(Start(t), es)
                        && (Disciplined(rules, w0, before + es) <==> Disciplined(rules, Start(t), es))
  {
    hide Exec, Disciplined, SubmissionFits, Fits;
    ReadyIsReachable(tenant, drawn, s, approver);
    var row, w0 := Row(tenant, drawn), Start(Empty({tenant}));
    var before := [Ask(SubmitOp(tenant, drawn, s))] + [Ask(ApproveOp(row, approver, 1))];
    var t :| Ready(t, row) && Exec(w0, before) == Start(t) && Disciplined(ALL, w0, before);
    ExecConcat(rules, w0, before, es);
    AskingIsFree(rules, w0, SubmitOp(tenant, drawn, s), ApproveOp(row, approver, 1));
  }

  lemma AskingIsFree(rules: Rules, w: World, a: Op, b: Op)
    ensures Disciplined(rules, w, [Ask(a)] + [Ask(b)])
  {
    hide Exec, Disciplined;
    StartIsDisciplined(rules, w);
    ExecOne(w, [], Ask(a));
    assert [] + [Ask(a)] == [Ask(a)];
    ExecOne(w, [Ask(a)], Ask(b));
  }

  // One attempt, its schedule free, by a Pilot that reports and by one that dies.

  function Attempted(row: Row, n: Nonce, s: Schedule): seq<Event> {
    [Fetch(0, row, n)] + [RunIt(0, s)]
  }

  function Reported(row: Row, n: Nonce, s: Schedule): seq<Event> {
    Attempted(row, n, s) + [Report(0)]
  }

  function Unreported(row: Row, n: Nonce, s: Schedule): seq<Event> {
    Attempted(row, n, s) + [Die(0)]
  }

  /** What an attempt may be from a world where nobody is in flight. */
  predicate Idle(w: World, row: Row) {
    w.pilots == map[] && row in w.tables.requests && w.tables.requests[row].state == Approved
  }

  /** The moment before the report; only the rules on nonces bear on it. */
  lemma AttemptRuns(rules: Rules, w: World, row: Row, n: Nonce, s: Schedule)
    requires Idle(w, row) && n != NO_NONCE && Possible(s)
    ensures Exec(w, Attempted(row, n, s))
            == World(w.tables, map[0 := Ran(Attempt(row, n), s)], w.history + [Past(Attempt(row, n), s)])
    ensures Disciplined(rules, w, Attempted(row, n, s)) <==> Obeys(rules, w, Fetch(0, row, n))
  {
    hide Exec, Disciplined, Usable, Possible;
    StartIsDisciplined(rules, w);
    ExecOne(w, [], Fetch(0, row, n));
    assert [] + [Fetch(0, row, n)] == [Fetch(0, row, n)];
    ExecOne(w, [Fetch(0, row, n)], RunIt(0, s));
  }

  lemma AttemptReports(rules: Rules, w: World, row: Row, n: Nonce, s: Schedule)
    requires Idle(w, row) && n != NO_NONCE && Possible(s)
    ensures Exec(w, Reported(row, n, s))
            == World(Record(w.tables, Attempt(row, n), s), map[], w.history + [Past(Attempt(row, n), s)])
    ensures Disciplined(rules, w, Reported(row, n, s)) <==> Obeys(rules, w, Fetch(0, row, n))
  {
    hide Exec, Disciplined, Usable, Possible, Record;
    AttemptRuns(rules, w, row, n, s);
    ExecOne(w, Attempted(row, n, s), Report(0));
    assert map[0 := Ran(Attempt(row, n), s)] - {0} == map[];
  }

  /** How often a request's statement took effect, one attempt later. */
  lemma OneMore(w: World, w': World, row: Row, past: Past)
    requires w'.history == w.history + [past] && past.attempt.row == row
    ensures Applied(w', row) == Applied(w, row) + if Effect(past.schedule) then 1 else 0
  {
    hide Effect;
    var last := |w.history|;
    assert Effects(w', row) == Effects(w, row) + if Effect(past.schedule) then {last} else {};
    assert Applied(w, row) == |Effects(w, row)| && Applied(w', row) == |Effects(w', row)|;
  }

  lemma NothingAppliedYet(t: Tables, row: Row)
    ensures Applied(Start(t), row) == 0
  {
    assert Effects(Start(t), row) == {};
    assert Applied(Start(t), row) == |Effects(Start(t), row)|;
  }

  /** The first report on an approved request is recorded exactly when its nonce is usable; if not, nothing is. */
  lemma RecordedIffUsable(t: Tables, a: Attempt, s: Schedule)
    requires Ready(t, a.row) && Possible(s)
    ensures a in Record(t, a, s).executions <==> Usable(a.nonce)
    ensures !Usable(a.nonce) ==> Record(t, a, s) == t
  {
    hide Blank, NonceFits;
    ReportIsTruthful(s);
    ReportsCrossTheWire(t, a.row, a.nonce, ReportOn(s));
    FreshNonceNeedsApproval(t, a.row, a.nonce, ReportOn(s));
  }

  /**
   Rule: a usable nonce. Whatever the target did, the report is recorded exactly when the nonce is
   usable. A white-space nonce, one too long for the column, or one that is not UTF-8 passes the
   command, the statement takes its effect, and the tables stay as they were.
   */
  lemma UnusableNonceLosesTheRecord(t: Tables, row: Row, n: Nonce, s: Schedule)
    requires Ready(t, row) && n != NO_NONCE && Possible(s)
    ensures var w := Exec(Start(t), Reported(row, n, s));
            && w.pilots == map[] && Applied(w, row) == (if Effect(s) then 1 else 0)
            && (Attempt(row, n) in w.tables.executions <==> Usable(n))
            && (!Usable(n) ==> w.tables == t)
    ensures Disciplined(ALL.(usableNonce := false), Start(t), Reported(row, n, s))
    ensures Disciplined(ALL, Start(t), Reported(row, n, s)) <==> Usable(n)
  {
    hide Exec, Disciplined, Usable, Possible, Record, Effect, Applied;
    AttemptReports(ALL, Start(t), row, n, s);
    AttemptReports(ALL.(usableNonce := false), Start(t), row, n, s);
    RecordedIffUsable(t, Attempt(row, n), s);
    NothingAppliedYet(t, row);
    OneMore(Start(t), Exec(Start(t), Reported(row, n, s)), row, Past(Attempt(row, n), s));
  }

  /**
   Rule: no death after a COMMIT that took effect. A death leaves the tables as they were and the
   target as the schedule says, so it may happen exactly when the schedule had no effect.
   */
  lemma DeathLosesTheRecord(t: Tables, row: Row, n: Nonce, s: Schedule)
    requires Ready(t, row) && Usable(n) && Possible(s)
    ensures var w := Exec(Start(t), Unreported(row, n, s));
            w.tables == t && w.pilots == map[] && Applied(w, row) == (if Effect(s) then 1 else 0)
    ensures Disciplined(ALL.(noDeathAfterCommit := false), Start(t), Unreported(row, n, s))
    ensures Disciplined(ALL, Start(t), Unreported(row, n, s)) <==> !Effect(s)
  {
    UsableIsSome(n);
    hide Exec, Disciplined, Usable, Possible, Effect, Applied;
    AttemptRuns(ALL, Start(t), row, n, s);
    AttemptRuns(ALL.(noDeathAfterCommit := false), Start(t), row, n, s);
    ExecOne(Start(t), Attempted(row, n, s), Die(0));
    assert map[0 := Ran(Attempt(row, n), s)] - {0} == map[];
    NothingAppliedYet(t, row);
    OneMore(Start(t), Exec(Start(t), Unreported(row, n, s)), row, Past(Attempt(row, n), s));
  }

  lemma UsableIsSome(n: Nonce)
    requires Usable(n)
    ensures n != NO_NONCE
  {
  }

  /** The first clean failure: recorded, and the request still approved. */
  lemma CleanFailureStaysReady(t: Tables, a: Attempt, s: Schedule)
    requires Ready(t, a.row) && Usable(a.nonce) && Possible(s) && CleanFailure(ReportOn(s).outcome)
    ensures var t' := Record(t, a, s);
            a.row in t'.requests && t'.requests[a.row].state == Approved && a in t'.executions
            && t'.executions[a] == ReportOn(s)
  {
    hide Usable;
    FirstReportLands(t, a, s);
  }

  /** A second report under a nonce changes nothing: it agrees, or it is refused. */
  lemma SecondReportChangesNothing(t: Tables, a: Attempt, s: Schedule)
    requires a.row in t.requests && t.requests[a.row].state == Approved && a in t.executions && Possible(s)
    requires CleanFailure(t.executions[a].outcome)
    ensures Record(t, a, s) == t
  {
    ReportIsTruthful(s);
    ReportsCrossTheWire(t, a.row, a.nonce, ReportOn(s));
    hide ReportOn, Possible, NonceFits;
    if t.executions[a] == ReportOn(s) {
      assert t.executions[a := ReportOn(s)] == t.executions;
      assert t.requests[a.row := t.requests[a.row].(state := Approved)] == t.requests;
    }
  }

  /**
   Rule: a fresh nonce. After any clean failure a re-run under the same nonce, whatever it did, leaves no
   trace in the tables; the statement has been applied exactly if that second schedule had an effect.
   */
  lemma ReusedNonceLosesTheRecord(t: Tables, row: Row, n: Nonce, s1: Schedule, s2: Schedule)
    requires Ready(t, row) && Usable(n) && Possible(s1) && Possible(s2) && CleanFailure(ReportOn(s1).outcome)
    ensures var w := Exec(Start(t), Reported(row, n, s1) + Reported(row, n, s2));
            && w.pilots == map[] && row in w.tables.requests && w.tables.requests[row].state == Approved
            && w.tables == Record(t, Attempt(row, n), s1)
            && Applied(w, row) == (if Effect(s2) then 1 else 0)
    ensures Disciplined(ALL.(freshNonce := false), Start(t), Reported(row, n, s1) + Reported(row, n, s2))
    ensures !Disciplined(ALL, Start(t), Reported(row, n, s1) + Reported(row, n, s2))
  {
    UsableIsSome(n);
    ReportIsTruthful(s1);
    hide Exec, Disciplined, Usable, Possible, Record, Effect, Applied, ReportOn, Reported;
    var w0, a, rules := Start(t), Attempt(row, n), ALL.(freshNonce := false);
    AttemptReports(rules, w0, row, n, s1);
    CleanFailureStaysReady(t, a, s1);
    var w1 := Exec(w0, Reported(row, n, s1));
    AttemptReports(rules, w1, row, n, s2);
    AttemptReports(ALL, w1, row, n, s2);
    assert w1.history[0].attempt == a;
    SecondReportChangesNothing(w1.tables, a, s2);
    ExecConcat(rules, w0, Reported(row, n, s1), Reported(row, n, s2));
    ExecConcat(ALL, w0, Reported(row, n, s1), Reported(row, n, s2));
    NothingAppliedYet(t, row);
    OneMore(w0, w1, row, Past(a, s1));
    OneMore(w1, Exec(w1, Reported(row, n, s2)), row, Past(a, s2));
  }

  /** Two attempts at once, each run to its report. */
  function Overlapped(row: Row, n: Nonce, s1: Schedule, m: Nonce, s2: Schedule): seq<Event> {
    Attempted(row, n, s1) + [Fetch(1, row, m)] + [RunIt(1, s2)] + [Report(0)] + [Report(1)]
  }

  /** A report under a new nonce after one that was not a clean failure: too late. */
  lemma LateReportIsRefused(t: Tables, a: Attempt, s1: Schedule, b: Attempt, s2: Schedule)
    requires Ready(t, a.row) && Usable(a.nonce) && Possible(s1) && Possible(s2) && !CleanFailure(ReportOn(s1).outcome)
    requires b.row == a.row && b != a
    ensures var t' := Record(t, a, s1);
            && a.row in t'.requests && Terminal(t'.requests[a.row].state) && b !in t'.executions
            && Record(t', b, s2) == t'
  {
    FirstReportLands(t, a, s1);
    ReportIsTruthful(s2);
    var t' := Record(t, a, s1);
    ReportsCrossTheWire(t', b.row, b.nonce, ReportOn(s2));
    hide ReportOn, Usable, Possible, NonceFits;
    FreshNonceNeedsApproval(t', b.row, b.nonce, ReportOn(s2));
    RefusalChangesNothing(t', b.row, "", 0, b.nonce, ReportOn(s2), b.row.tenant, "", Submission("", "", "", "", "", ""));
  }

  /** After a clean failure the other attempt's report lands. */
  lemma OtherReportLands(t: Tables, a: Attempt, s1: Schedule, b: Attempt, s2: Schedule)
    requires Ready(t, a.row) && Usable(a.nonce) && Usable(b.nonce) && Possible(s1) && Possible(s2)
    requires CleanFailure(ReportOn(s1).outcome) && b.row == a.row && b != a
    ensures b in Record(Record(t, a, s1), b, s2).executions
  {
    hide Usable, ReportOn, Possible;
    CleanFailureStaysReady(t, a, s1);
    FirstReportLands(t, a, s1);
    FirstReportLands(Record(t, a, s1), b, s2);
  }

  /**
   Rule: one attempt at a time. Two attempts with fresh, usable nonces and any schedules apply the
   statement as often as schedules had an effect, twice if both had. The second report lands exactly if
   the first was a clean failure; otherwise it is refused after the fact and the tables show one attempt.
   */
  lemma OverlapAppliesTwice(t: Tables, row: Row, n: Nonce, s1: Schedule, m: Nonce, s2: Schedule)
    requires Ready(t, row) && Usable(n) && Usable(m) && n != m && Possible(s1) && Possible(s2)
    ensures var w := Exec(Start(t), Overlapped(row, n, s1, m, s2));
            && w.pilots == map[]
            && Applied(w, row) == (if Effect(s1) then 1 else 0) + (if Effect(s2) then 1 else 0)
            && (Attempt(row, m) in w.tables.executions <==> CleanFailure(ReportOn(s1).outcome))
            && (!CleanFailure(ReportOn(s1).outcome) ==> w.tables == Record(t, Attempt(row, n), s1))
    ensures Disciplined(ALL.(alone := false), Start(t), Overlapped(row, n, s1, m, s2))
    ensures !Disciplined(ALL, Start(t), Overlapped(row, n, s1, m, s2))
  {
    hide Applied, Effect;
    var a, b, w := Attempt(row, n), Attempt(row, m), Exec(Start(t), Overlapped(row, n, s1, m, s2));
    OverlappedRuns(t, row, n, s1, m, s2);
    if CleanFailure(ReportOn(s1).outcome) {
      OtherReportLands(t, a, s1, b, s2);
    } else {
      LateReportIsRefused(t, a, s1, b, s2);
    }
    NothingAppliedYet(t, row);
    var one := World(t, map[], [Past(a, s1)]);
    assert [] + [Past(a, s1)] == [Past(a, s1)];
    OneMore(Start(t), one, row, Past(a, s1));
    OneMore(one, w, row, Past(b, s2));
  }

  /** The second attempt starts and runs while the first is in flight. */
  lemma SecondAttemptRuns(rules: Rules, w0: World, es: seq<Event>, a: Attempt, s1: Schedule, b: Attempt, s2: Schedule)
    requires Exec(w0, es).pilots == map[0 := Ran(a, s1)] && a.row == b.row
    requires var t := Exec(w0, es).tables; b.row in t.requests && t.requests[b.row].state == Approved
    requires b.nonce != NO_NONCE && Possible(s2)
    ensures var w, es' := Exec(w0, es), es + [Fetch(1, b.row, b.nonce)] + [RunIt(1, s2)];
            && Exec(w0, es') == World(w.tables, map[0 := Ran(a, s1), 1 := Ran(b, s2)], w.history + [Past(b, s2)])
            && (Disciplined(rules, w0, es') <==> Disciplined(rules, w0, es) && Obeys(rules, w, Fetch(1, b.row, b.nonce)))
  {
    hide Exec, Disciplined, Possible, Usable;
    ExecOne(w0, es, Fetch(1, b.row, b.nonce));
    ExecOne(w0, es + [Fetch(1, b.row, b.nonce)], RunIt(1, s2));
  }

  lemma BothReport(rules: Rules, w0: World, es: seq<Event>, a: Attempt, s1: Schedule, b: Attempt, s2: Schedule)
    requires Exec(w0, es).pilots == map[0 := Ran(a, s1), 1 := Ran(b, s2)]
    ensures var w, es' := Exec(w0, es), es + [Report(0)] + [Report(1)];
            && Exec(w0, es') == World(Record(Record(w.tables, a, s1), b, s2), map[], w.history)
            && (Disciplined(rules, w0, es') <==> Disciplined(rules, w0, es))
  {
    hide Exec, Disciplined, Record;
    ExecOne(w0, es, Report(0));
    ExecOne(w0, es + [Report(0)], Report(1));
    assert Exec(w0, es).pilots - {0} == map[1 := Ran(b, s2)];
    assert Exec(w0, es).pilots - {0} - {1} == map[];
  }

  lemma OverlappedRuns(t: Tables, row: Row, n: Nonce, s1: Schedule, m: Nonce, s2: Schedule)
    requires Ready(t, row) && Usable(n) && Usable(m) && n != m && Possible(s1) && Possible(s2)
    ensures var a, b := Attempt(row, n), Attempt(row, m);
            Exec(Start(t), Overlapped(row, n, s1, m, s2))
            == World(Record(Record(t, a, s1), b, s2), map[], [Past(a, s1)] + [Past(b, s2)])
    ensures Disciplined(ALL.(alone := false), Start(t), Overlapped(row, n, s1, m, s2))
    ensures !Disciplined(ALL, Start(t), Overlapped(row, n, s1, m, s2))
  {
    UsableIsSome(n);
    UsableIsSome(m);
    hide Exec, Disciplined, Usable, Possible, Record, Attempted;
    var w0, a, b, rules := Start(t), Attempt(row, n), Attempt(row, m), ALL.(alone := false);
    var es := Attempted(row, n, s1);
    assert [] + [Past(a, s1)] == [Past(a, s1)];
    AttemptRuns(rules, w0, row, n, s1);
    var w := Exec(w0, es);
    assert 0 in w.pilots && w.pilots[0].attempt.row == row && InFlight(w, row);
    SecondAttemptRuns(rules, w0, es, a, s1, b, s2);
    SecondAttemptRuns(ALL, w0, es, a, s1, b, s2);
    var es' := es + [Fetch(1, row, m)] + [RunIt(1, s2)];
    BothReport(rules, w0, es', a, s1, b, s2);
    BothReport(ALL, w0, es', a, s1, b, s2);
  }
}
