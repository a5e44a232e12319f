/**
 Any number of migrators, each carrying its own embedded set, run against one database under a
 session lock. They may fail or die between any two steps.
 */
module Migrators {
  import opened Prelude
  import opened History

  /** Where a migrator stands. The lock is held from Locked to Applying. `staged`: DDL and INSERT ran, COMMIT has not. */
  datatype Stage =
    | Waiting
    | Locked
    | Ready
    | HasRead(applied: seq<Record>)
    | Applying(next: nat, staged: bool)
    | Succeeded
    | Ended

  datatype Migrator = Migrator(embedded: seq<Migration>, runtimeRole: bool, at: Stage)

  /** `authors[i]` is the migrator that appended row i, `schema[i]` the DDL that landed with it. */
  datatype World = World(history: seq<Record>, schema: seq<Text>, lock: Option<nat>, migrators: map<nat, Migrator>, authors: seq<nat>)

  datatype Event =
    | Arrive(id: nat, embedded: seq<Migration>, runtimeRole: bool)
    | TakeLock(id: nat)
    | CheckRoleAndCreateTable(id: nat)
    | ReadHistory(id: nat)
    | CompareThem(id: nat)
    | StageNext(id: nat)
    | Commit(id: nat, heard: bool)
    | Finish(id: nat)
    | End(id: nat)      // an error, a timeout or a crash: the transaction is gone and so is the lock

  predicate Holding(at: Stage) {
    at.Locked? || at.Ready? || at.HasRead? || at.Applying?
  }

  function Move(w: World, id: nat, at: Stage): World
    requires id in w.migrators
  {
    w.(migrators := w.migrators[id := w.migrators[id].(at := at)])
  }

  /** The session is over: the advisory lock is released, an open transaction rolled back. */
  function Leave(w: World, id: nat, at: Stage): World
    requires id in w.migrators
  {
    Move(w, id, at).(lock := if w.lock == Some(id) then None else w.lock)
  }

  /** The primary key on number. */
  predicate Taken(history: seq<Record>, number: int) {
    exists i | 0 <= i < |history| :: history[i].number == number
  }

  function Next(w: World, ev: Event): World {
    if ev.Arrive? then
      if ev.id in w.migrators || exists i | 0 <= i < |ev.embedded| :: ev.embedded[i].number != i + 1 then w
      else w.(migrators := w.migrators[ev.id := Migrator(ev.embedded, ev.runtimeRole, Waiting)])
    else if ev.id !in w.migrators then w
    else
      var m := w.migrators[ev.id];
      match ev
      case TakeLock(id) =>
        if m.at != Waiting || w.lock != None then w else Move(w, id, Locked).(lock := Some(id))
      case CheckRoleAndCreateTable(id) =>
        if m.at != Locked then w else if m.runtimeRole then Leave(w, id, Ended) else Move(w, id, Ready)
      case ReadHistory(id) =>
        if m.at != Ready then w else Move(w, id, HasRead(w.history))
      case CompareThem(id) =>
        if !m.at.HasRead? then w
        else if m.at.applied <= Records(m.embedded) then Move(w, id, Applying(|m.at.applied|, false))
        else Leave(w, id, Ended)
      case StageNext(id) =>
        if !m.at.Applying? || m.at.staged || m.at.next >= |m.embedded| then w
        else if Taken(w.history, m.embedded[m.at.next].number) then Leave(w, id, Ended)
        else Move(w, id, Applying(m.at.next, true))
      case Commit(id, heard) =>
        if !m.at.Applying? || !m.at.staged || m.at.next >= |m.embedded| then w
        else
          var w' := w.(history := w.history + [RecordOf(m.embedded[m.at.next])],
                       schema := w.schema + [m.embedded[m.at.next].sql], authors := w.authors + [id]);
          if heard then Move(w', id, Applying(m.at.next + 1, false)) else Leave(w', id, Ended)
      case Finish(id) =>
        if !m.at.Applying? || m.at.staged || m.at.next < |m.embedded| then w else Leave(w, id, Succeeded)
      case End(id) =>
        if m.at.Succeeded? then w else Leave(w, id, Ended)
  }

  function Exec(w: World, events: seq<Event>): World {
    if events == [] then w else Next(Exec(w, events[..|events| - 1]), events[|events| - 1])
  }

  /** A database nobody has migrated yet. */
  const START := World([], [], None, map[], [])

  // ---------------------------------------------------------------- the invariant

  ghost predicate OneHolder(w: World) {
    && (w.lock.Some? ==> w.lock.value in w.migrators)
    && forall id | id in w.migrators :: Holding(w.migrators[id].at) <==> w.lock == Some(id)
  }

  ghost predicate Tracks(w: World, m: Migrator) {
    && Contiguous(m.embedded)
    && (m.at.HasRead? ==> m.at.applied == w.history)
    && (m.at.Applying? ==> m.at.next == |w.history| <= |m.embedded| && w.history == Records(m.embedded)[..m.at.next])
    && (m.at.Succeeded? ==> Records(m.embedded) <= w.history)
  }

  ghost predicate Authored(w: World) {
    && |w.authors| == |w.history| && |w.schema| == |w.history|
    && forall i | 0 <= i < |w.history| ::
         && w.authors[i] in w.migrators && i < |w.migrators[w.authors[i]].embedded|
         && w.history[i] == RecordOf(w.migrators[w.authors[i]].embedded[i])
         && w.schema[i] == w.migrators[w.authors[i]].embedded[i].sql
  }

  ghost predicate Inv(w: World) {
    OneHolder(w) && Authored(w) && forall id | id in w.migrators :: Tracks(w, w.migrators[id])
  }

  lemma NextKeepsOneHolder(w: World, ev: Event)
    requires OneHolder(w)
    ensures OneHolder(Next(w, ev))
  {
    hide Records, Taken;
  }

  lemma SetsStay(w: World, ev: Event)
    ensures forall id | id in w.migrators ::
              id in Next(w, ev).migrators && Next(w, ev).migrators[id].embedded == w.migrators[id].embedded
  {
    hide Taken, Records, RecordOf;
  }

  lemma OnlyCommitsAppend(w: World, ev: Event)
    requires !ev.Commit?
    ensures Next(w, ev).history == w.history && Next(w, ev).schema == w.schema && Next(w, ev).authors == w.authors
  {
    hide Taken, Records, RecordOf;
  }

  lemma CommitKeepsAuthored(w: World, ev: Event)
    requires Authored(w) && ev.Commit? && ev.id in w.migrators && Tracks(w, w.migrators[ev.id])
    ensures Authored(Next(w, ev))
  {
    hide Records, Contiguous;
    SetsStay(w, ev);
  }

  lemma NextKeepsAuthored(w: World, ev: Event)
    requires Authored(w) && (ev.id in w.migrators ==> Tracks(w, w.migrators[ev.id]))
    ensures Authored(Next(w, ev))
  {
    hide Next;
    if ev.Commit? && ev.id in w.migrators {
      CommitKeepsAuthored(w, ev);
    } else if ev.Commit? {
      NobodyCommits(w, ev);
    } else {
      SetsStay(w, ev);
      OnlyCommitsAppend(w, ev);
    }
  }

  lemma NobodyCommits(w: World, ev: Event)
    requires ev.Commit? && ev.id !in w.migrators
    ensures Next(w, ev) == w
  {
  }

  /** A migrator that is not moved keeps track while the history stands. */
  lemma StillTracks(w: World, w': World, m: Migrator)
    requires Tracks(w, m) && w'.history == w.history
    ensures Tracks(w', m)
  {
    hide Records, Contiguous;
  }

  lemma MoverKeepsTrack(w: World, ev: Event)
    requires ev.id in w.migrators && Tracks(w, w.migrators[ev.id]) && Next(w, ev).history == w.history
    ensures Tracks(Next(w, ev), Next(w, ev).migrators[ev.id])
  {
    hide Taken, Contiguous;
  }

  lemma OnlyOneMoves(w: World, ev: Event)
    ensures var w' := Next(w, ev);
            && (forall id | id in w.migrators :: id in w'.migrators && (id != ev.id ==> w'.migrators[id] == w.migrators[id]))
            && (forall id | id in w'.migrators && id !in w.migrators :: id == ev.id && ev.Arrive? && w'.history == w.history
                  && w'.migrators[id].at == Waiting && Contiguous(w'.migrators[id].embedded))
  {
    hide Taken, Records, RecordOf;
  }

  lemma OthersKeepTrack(w: World, ev: Event)
    requires Inv(w) && Next(w, ev).history == w.history
    ensures forall id | id in Next(w, ev).migrators :: Tracks(Next(w, ev), Next(w, ev).migrators[id])
  {
    hide Next, Taken, Authored, OneHolder, Records, Contiguous;
    var w' := Next(w, ev);
    OnlyOneMoves(w, ev);
    if ev.id in w.migrators { MoverKeepsTrack(w, ev); }
    forall id | id in w'.migrators
      ensures Tracks(w', w'.migrators[id])
    {
      if id in w.migrators && id != ev.id { StillTracks(w, w', w.migrators[id]); }
    }
  }

  lemma NextKeepsInv(w: World, ev: Event)
    requires Inv(w)
    ensures Inv(Next(w, ev))
  {
    NextKeepsOneHolder(w, ev);
    NextKeepsAuthored(w, ev);
    if ev.Commit? && Next(w, ev) != w {
      CommitKeepsTracks(w, ev);
    } else {
      OthersKeepTrack(w, ev);
    }
  }

  lemma CommitKeepsTracks(w: World, ev: Event)
    requires Inv(w) && ev.Commit? && Next(w, ev) != w
    ensures forall id | id in Next(w, ev).migrators :: Tracks(Next(w, ev), Next(w, ev).migrators[id])
  {
    var w' := Next(w, ev);
    var m := w.migrators[ev.id];
    assert Tracks(w, m);
    assert Records(m.embedded)[..m.at.next + 1] == Records(m.embedded)[..m.at.next] + [RecordOf(m.embedded[m.at.next])];
    forall id | id in w'.migrators
      ensures Tracks(w', w'.migrators[id])
    {
      assert Tracks(w, w.migrators[id]);
      assert id != ev.id ==> !Holding(w.migrators[id].at);
    }
  }

  lemma {:induction false} ExecKeepsInv(events: seq<Event>)
    ensures Inv(Exec(START, events))
  {
    if events != [] {
      ExecKeepsInv(events[..|events| - 1]);
      NextKeepsInv(Exec(START, events[..|events| - 1]), events[|events| - 1]);
    }
  }

  // ---------------------------------------------------------------- main results

  /** The history is longer or the same, and nobody's set or success is forgotten. */
  ghost predicate Grows(w: World, w': World) {
    && w.history <= w'.history && w.schema <= w'.schema && w.authors <= w'.authors
    && forall id | id in w.migrators ::
         && id in w'.migrators && w'.migrators[id].embedded == w.migrators[id].embedded
         && (w.migrators[id].at.Succeeded? ==> w'.migrators[id].at.Succeeded?)
  }

  lemma NextGrows(w: World, ev: Event)
    ensures Grows(w, Next(w, ev))
  {
    hide Taken, Records, RecordOf;
  }

  lemma GrowsIsTransitive(a: World, b: World, c: World)
    requires Grows(a, b) && Grows(b, c)
    ensures Grows(a, c)
  {
  }

  lemma {:induction false} HistoryOnlyGrows(w: World, events: seq<Event>)
    ensures Grows(w, Exec(w, events))
  {
    if events != [] {
      hide Next, Grows;
      HistoryOnlyGrows(w, events[..|events| - 1]);
      NextGrows(Exec(w, events[..|events| - 1]), events[|events| - 1]);
      GrowsIsTransitive(w, Exec(w, events[..|events| - 1]), Exec(w, events));
    }
  }

  /**
   Each row is the next entry of the set of the binary that appended it, the DDL that landed with it is
   that entry's, and no number is applied twice.
   */
  lemma RowsAreTheirAuthorsNext(events: seq<Event>, i: nat)
    requires i < |Exec(START, events).history|
    ensures var w := Exec(START, events);
            && |w.authors| == |w.history| && |w.schema| == |w.history| && w.authors[i] in w.migrators
            && i < |w.migrators[w.authors[i]].embedded|
            && w.history[i] == RecordOf(w.migrators[w.authors[i]].embedded[i])
            && w.schema[i] == w.migrators[w.authors[i]].embedded[i].sql
            && w.history[i].number == i + 1
            && forall j | 0 <= j < |w.history| && j != i :: w.history[j].number != w.history[i].number
  {
    ExecKeepsInv(events);
    var w := Exec(START, events);
    forall j | 0 <= j < |w.history|
      ensures w.history[j].number == j + 1
    {
      assert Tracks(w, w.migrators[w.authors[j]]);
    }
  }

  lemma {:induction false} ExecConcat(w: World, a: seq<Event>, b: seq<Event>)
    ensures Exec(w, a + b) == Exec(Exec(w, a), b)
  {
    hide Next;
    if b == [] {
      assert a + b == a;
    } else {
      ExecConcat(w, a, b[..|b| - 1]);
      assert (a + b)[..|a + b| - 1] == a + b[..|b| - 1] && (a + b)[|a + b| - 1] == b[|b| - 1];
    }
  }

  /** Once a binary's Migrate has succeeded, its whole set is a prefix of the history for ever after. */
  lemma SuccessIsForever(before: seq<Event>, later: seq<Event>, id: nat)
    requires id in Exec(START, before).migrators && Exec(START, before).migrators[id].at.Succeeded?
    ensures Records(Exec(START, before).migrators[id].embedded) <= Exec(START, before + later).history
  {
    ExecKeepsInv(before);
    ExecConcat(START, before, later);
    HistoryOnlyGrows(Exec(START, before), later);
    var w := Exec(START, before);
    assert Tracks(w, w.migrators[id]);
  }

  /** So two binaries that both ever succeeded agree as far as the shorter one goes. */
  lemma SuccessfulBinariesAgree(events: seq<Event>, a: nat, b: nat)
    requires var w := Exec(START, events);
             a in w.migrators && b in w.migrators && w.migrators[a].at.Succeeded? && w.migrators[b].at.Succeeded?
    ensures var w := Exec(START, events);
            || Records(w.migrators[a].embedded) <= Records(w.migrators[b].embedded)
            || Records(w.migrators[b].embedded) <= Records(w.migrators[a].embedded)
  {
    ExecKeepsInv(events);
    var w := Exec(START, events);
    assert Tracks(w, w.migrators[a]) && Tracks(w, w.migrators[b]);
  }

  /** Under the lock the primary key never has to refuse: whoever stages a migration is alone and first. */
  lemma KeyIsNeverTaken(events: seq<Event>, id: nat)
    requires var w := Exec(START, events);
             && id in w.migrators && w.migrators[id].at.Applying? && w.migrators[id].at.next < |w.migrators[id].embedded|
    ensures var w := Exec(START, events);
            && !Taken(w.history, w.migrators[id].embedded[w.migrators[id].at.next].number)
            && w.lock == Some(id)
            && forall other | other in w.migrators && Holding(w.migrators[other].at) :: other == id
  {
    ExecKeepsInv(events);
    var w := Exec(START, events);
    assert Tracks(w, w.migrators[id]);
    forall i | 0 <= i < |w.history|
      ensures w.history[i].number == i + 1
    {
      assert Tracks(w, w.migrators[w.authors[i]]);
    }
  }

  // ---------------------------------------------------------------- a migrator left alone succeeds

  lemma ExecOne(w: World, ev: Event)
    ensures Exec(w, [ev]) == Next(w, ev)
  {
    assert [ev][..0] == [];
  }

  lemma ExecTwo(w: World, a: Event, b: Event)
    ensures Exec(w, [a, b]) == Next(Next(w, a), b)
  {
    hide Next;
    ExecOne(w, a);
    assert [a, b][..1] == [a];
  }

  /** One more migration, from staging to a COMMIT that is heard. */
  lemma AppliesOne(w: World, id: nat)
    requires id in w.migrators && Tracks(w, w.migrators[id]) && w.migrators[id].at == Applying(|w.history|, false)
    requires |w.history| < |w.migrators[id].embedded|
    ensures var w', m := Exec(w, [StageNext(id), Event.Commit(id, true)]), w.migrators[id];
            && w'.history == w.history + [RecordOf(m.embedded[|w.history|])]
            && id in w'.migrators && w'.migrators[id] == m.(at := Applying(|w.history| + 1, false))
  {
    var m := w.migrators[id];
    NumberIsFree(m.embedded, w.history, |w.history|);
    assert !Taken(w.history, m.embedded[|w.history|].number);
    ExecTwo(w, StageNext(id), Event.Commit(id, true));
  }

  lemma {:induction false} AppliesRest(w: World, id: nat) returns (more: seq<Event>)
    requires id in w.migrators && Tracks(w, w.migrators[id]) && w.migrators[id].at == Applying(|w.history|, false)
    ensures var w' := Exec(w, more);
            && id in w'.migrators && w'.migrators[id].at.Succeeded? && w'.history == Records(w.migrators[id].embedded)
    decreases |w.migrators[id].embedded| - |w.history|
  {
    var m := w.migrators[id];
    if |w.history| == |m.embedded| {
      more := [Finish(id)];
      ExecOne(w, Finish(id));
      assert Records(m.embedded)[..|m.embedded|] == Records(m.embedded);
    } else {
      AppliesOne(w, id);
      hide Next, Exec;
      var first := [StageNext(id), Event.Commit(id, true)];
      var w1 := Exec(w, first);
      OneMoreRecord(m.embedded, |w.history|);
      var rest := AppliesRest(w1, id);
      more := first + rest;
      ExecConcat(w, first, rest);
    }
  }

  /** From waiting to its first migration: lock, role, table, history, comparison. */
  lemma GetsReady(w: World, id: nat)
    requires id in w.migrators && Tracks(w, w.migrators[id]) && w.lock == None
    requires w.migrators[id].at == Waiting && !w.migrators[id].runtimeRole && w.history <= Records(w.migrators[id].embedded)
    ensures var w' := Exec(w, [TakeLock(id), CheckRoleAndCreateTable(id)] + [ReadHistory(id), CompareThem(id)]);
            && w'.history == w.history && id in w'.migrators
            && w'.migrators[id] == w.migrators[id].(at := Applying(|w.history|, false)) && Tracks(w', w'.migrators[id])
  {
    ExecTwo(w, TakeLock(id), CheckRoleAndCreateTable(id));
    var w1 := Exec(w, [TakeLock(id), CheckRoleAndCreateTable(id)]);
    ExecTwo(w1, ReadHistory(id), CompareThem(id));
    ExecConcat(w, [TakeLock(id), CheckRoleAndCreateTable(id)], [ReadHistory(id), CompareThem(id)]);
    hide Exec;
    assert w1.migrators[id].at == Ready;
  }

  /**
   In every reachable world with the lock free, a waiting migrator that is not the runtime role and whose
   set the history is a prefix of can run to success, and then the history is its whole set.
   */
  lemma MigratorsSucceed(events: seq<Event>, id: nat) returns (more: seq<Event>)
    requires var w := Exec(START, events);
             && w.lock == None && id in w.migrators && w.migrators[id].at == Waiting && !w.migrators[id].runtimeRole
             && w.history <= Records(w.migrators[id].embedded)
    ensures var w, w' := Exec(START, events), Exec(START, events + more);
            && id in w'.migrators && w'.migrators[id].at.Succeeded? && w'.history == Records(w.migrators[id].embedded)
  {
    ExecKeepsInv(events);
    hide Exec, Next;
    var w := Exec(START, events);
    var first := [TakeLock(id), CheckRoleAndCreateTable(id)] + [ReadHistory(id), CompareThem(id)];
    GetsReady(w, id);
    var rest := AppliesRest(Exec(w, first), id);
    more := first + rest;
    ExecConcat(w, first, rest);
    ExecConcat(START, events, more);
  }
}
