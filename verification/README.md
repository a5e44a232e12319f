# Marque: a verified model

Marque lets an operator submit a SQL statement, have it approved, and have a Pilot run it once against a
target database, while the Harbourmaster (the control plane) keeps the record. This project models the parts of
it whose correctness is a matter of many branches, many steps or many processes, and proves what they are for.
`dafny verify dfyconfig.toml` checks everything.

| file | models |
|---|---|
| `Prelude.dfy` | text, options, white space |
| `Ledger.dfy` | the tables of the control plane and `Submit`, `Approve`, `RecordExecution` as atomic operations; invariants over every run |
| `Store.dfy` | the class with those methods, call by call, any one of which may fail |
| `Transactions.dfy` | the same operations as transactions interleaved one SQL statement at a time under row locks |
| `Pilot.dfy` | `RunOne`, `CommitWasRefused` and `Execute` over every way a target can answer |
| `Api.dfy`, `Command.dfy` | the service's validation and the whole of `pilot execute` |
| `EndToEnd.dfy` | clients, Pilots that die anywhere, the tables and the target together, each operation one step |
| `Interleaved.dfy` | the same with every operation a transaction taken apart into its SQL statements |
| `SqlLexer.dfy`, `SqlGrammar.dfy`, `PhraseGuard.dfy` | the hand-written SQL lexer, the grammar it is held against, and the guard against non-transactional statements |
| `History.dfy`, `Migrators.dfy` | the migration loader and comparison; one migrator; any number of concurrent ones |
| `Json.dfy`, `KeyCheck.dfy`, `Escapes.dfy`, `Encoding.dfy`, `Reading.dfy`, `Corpus.dfy` | the conformance corpus loader and the way back |
| `Annotations.dfy`, `Compatibility.dfy` | the retry declarations and what may change in them |
| `ImportGraph.dfy` | the search for packages that reach a database driver |

## How it is put together

*The protocol* is proved in layers, and the layers are joined by theorems. `Transactions` shows that any
interleaving of statements, with any transaction dying anywhere, leaves the tables as the committed operations would
run one at a time, in commit order and in lock order; that each statement is exactly one atomic operation on the tables
or none; and that what `Ledger` proves of two moments of a serial run holds of any two moments of an interleaving.
`EndToEnd` takes the operations as single steps and compares the tables with what the target really contains;
`Interleaved` puts Pilots, target and transactions together and proves that each of its runs, seen through the
committed tables, is a run of `EndToEnd` under the same rules, so that at-most-once holds statement by statement.
A state machine has a pure `Next`, total on all events: an event that cannot happen leaves the state as it is, so
every sequence of events is a run and nothing is assumed about scheduling. Loops and classes of the source are
methods here, each proved equal to a specification function or to an if-and-only-if, and the theorems are about those.

*What a step computes* is described twice. Beside each function that follows the source stands a description that does
not mention it, and a theorem that connects the two on all inputs, both ways where there are two: the lexer and a
grammar of comments, literals and dollar bodies; the scan of escapes and units spelled from code points; the number in
a file's name and the digits that spell it; the loader's decoding and the members a document must have; the index of
messages and dotted names; the right to hold a driver and the packages by name; a report and what the server did.

*Text* is a sequence of characters: one for each byte where the source works on bytes, with the phrase search stated
for ASCII, where upper-casing keeps lengths; one for each code point where it works on decoded text. A digest is a
value that equals another or does not. References drawn at random are parameters: any value at all, fresh or not. A
nonce is a command-line argument, and so may be bytes that are no text.

## What the proofs brought to light

Where the code does not do what one might wish, the code was kept and the exact condition proved.

- **At most once holds under four rules, and each is exact.** `EndToEnd.AtMostOnce` needs attempts on a request not to
  overlap, each nonce to be new, each nonce to be one the control plane accepts, and no Pilot to die for good between
  the target's COMMIT and its report. Four lemmas waive one rule each, for every approved request with nothing
  recorded and every way the target can answer, and say what then becomes of tables and target: a death is harmful
  exactly when the schedule had an effect, a report is recorded exactly when its nonce is usable, a re-run under an
  old nonce goes unrecorded whatever it did, an overlap applies as often as its schedules had effects.
  `RunsFromNothing` starts each of those runs from empty tables.
- **Some nonces are found out too late.** `pilot execute` refuses only an empty nonce (`cmd/pilot/main.go:87`). One of
  white space passes, the statement runs and commits, and then the service refuses the report
  (`internal/harbourmaster/api/api.go:208`). One longer than the column allows goes the same way at the insertion. One
  that is not UTF-8 goes the same way when the report cannot be marshalled, because a protobuf string must be
  (`proto/marque/v1/harbourmaster.proto:161`). Each leaves the change in the target and the request approved.
- **The row lock is necessary.** With `FOR UPDATE` dropped from the model, an approval that read the request before
  a report committed moves an executed request back to approved (`WithoutTheLockAnApprovalUnexecutes`). With it, no interleaving
  does (`CommittedOnlyExtends`).
- **The comments on repeats and the code disagree.** `queries.go:257-259` and `api.go:200-203` say that a repeat with
  a different outcome gets the stored row back. The code refuses it (`queries.go:333-339`), and so does the model.
- **The compatibility rule is not transitive, is exact only towards methods that are not safe, and compares a method
  that was removed and came back with nothing.** `RuleIsNotTransitive`, `RuleIsExactUnlessSafe` and
  `ReturningMethodIsUnprotected` say so; `ChainIsSafe` is what holds all the same, and towards methods that are not safe
  the rule is transitive along a chain of any length (`ChainKeepsTheRule`).

## Model

| member | source | states |
|---|---|---|
| Ledger.ApplyKeepsConsistent | internal/harbourmaster/store/queries.go:190-408 | One operation of any kind keeps the whole invariant: each state's account of its executions, an approval behind every request past pending, legal rows, the key index a bijection |
| Ledger.EveryRunIsConsistent | internal/harbourmaster/store/queries.go:285-406 | In every store reached from an empty one: pending has no executions, approved only clean failures, executed exactly one committed and no indeterminate, indeterminate exactly one indeterminate and no committed |
| Ledger.RunExtends | internal/harbourmaster/store/queries.go:303-406 | Over any run from any store nothing stored is rewritten: submissions, keys, approvals, and each nonce's first outcome and count stay; a terminal state is never left |
| Ledger.OneRequestPerKey | internal/harbourmaster/store/queries.go:138-146 | In every run two requests of one tenant with one idempotency key are one request |
| Ledger.SubmitIsIdempotent | internal/harbourmaster/store/queries.go:106-151 | After a submission and any run whatever, submitting under its key returns the first reference and changes no table, whatever the second submission says |
| Ledger.TenantsAreIsolated | internal/harbourmaster/store/queries.go:153-169 | No run of other tenants' operations touches any row, key, approval or execution of this tenant |
| Ledger.RepeatIsAcknowledgedIffItAgrees | internal/harbourmaster/store/queries.go:319-339 | In every run a repeated nonce is acknowledged exactly when outcome and count agree with the stored ones, and either way nothing changes |
| Ledger.LateDuplicateDoesNotUnExecute | internal/harbourmaster/store/queries.go:379-398 | The four reports that once un-executed a request: the late duplicate is acknowledged without moving it, the fourth is refused |
| Ledger.AnswersMean | internal/harbourmaster/store/queries.go:202-339 | NoSuchRequest exactly when there is no such row; WrongState exactly when the state, an unknown nonce on a finished request, or a contradicted record refuses |
| Ledger.FirstSubmissionIsStored | internal/harbourmaster/store/queries.go:138-151 | The first submission under a key stores just what was submitted, pending, and returns the reference drawn |
| Ledger.ApprovalIsIdempotent | internal/harbourmaster/store/queries.go:171-236 | An approval that fits is taken while pending or approved, adds just itself, and made again after any run that left the request approved changes nothing |
| Ledger.RowsAsChecked | internal/harbourmaster/store/migrations/0001_initial.sql:53-110 | Each column check as the schema writes it: the length of the trimmed text between 1 and its bound, stage 1 to 64, count absent exactly when indeterminate and not negative |
| Store.Store.Submit | internal/harbourmaster/store/queries.go:112-151 | The upsert is the atomic operation; on an error it changed nothing, or the answer to its commit was lost |
| Store.Store.GetRequest | internal/harbourmaster/store/queries.go:155-169 | The tenant's own row, NoSuchRequest, or an error if the read fails; it changes nothing |
| Store.Store.Approve | internal/harbourmaster/store/queries.go:190-236 | Whichever call fails, the new state is that of the atomic operation or the old one; answering Done means it took effect, and only a lost COMMIT answer hides that it did |
| Store.Store.RecordExecution | internal/harbourmaster/store/queries.go:260-408 | The same for the seven-branch report: guards, upsert, contradiction check, state update, commit, with any call failing |
| Transactions.CommitIsAtomic | internal/harbourmaster/store/queries.go:196-235 | What a transaction buffered statement by statement, merged at COMMIT, is the whole operation done at once on the latest tables |
| Transactions.KnowsIsStable | internal/harbourmaster/store/queries.go:202-204 | What a transaction read under its row lock stays true through any other request's operations and any submission |
| Transactions.ExecKeepsInv | internal/harbourmaster/store/queries.go:190-408 | Over every interleaving and any crashes: locks and holders correspond, each holder's knowledge is current, conflicting commits keep ticket order, the tables are the run of the log |
| Transactions.CommittedIsSerial | internal/harbourmaster/store/queries.go:190-408 | For any number of transactions interleaved by single statements, the committed tables are the committed operations run one at a time in commit order |
| Transactions.SerialInLockOrder | internal/harbourmaster/store/queries.go:190-408 | And also those operations run in the order in which they took their row locks, a permutation of the log sorted by ticket |
| Transactions.Commute | internal/harbourmaster/store/queries.go:217-228 | Operations on different requests, at most one a submission, give the same tables in either order |
| Transactions.AnswersAreAtomic | internal/harbourmaster/store/queries.go:202-299 | Every answer a transaction gives, refusals included, is the atomic operation's answer on the tables of that moment |
| Transactions.CommittedIsConsistent | internal/harbourmaster/store/queries.go:285-406 | The whole-run invariant holds of the committed tables of every interleaving |
| Transactions.NextIsOneApply | internal/harbourmaster/store/queries.go:190-408 | Each statement of any transaction leaves tables and log alone or is exactly one atomic operation, and only COMMIT or a submission is: a refused or dead transaction leaves no trace |
| Transactions.CommittedRunsOn | internal/harbourmaster/store/queries.go:190-408 | The tables at any later moment are those of the earlier one after the operations committed in between, one at a time |
| Transactions.CommittedOnlyExtends | internal/harbourmaster/store/queries.go:303-406 | Between any two moments of any interleaving no submission is rewritten, no terminal state left, no key re-pointed, no approval or execution lost or changed |
| Transactions.SubmitIsIdempotentThroughout | internal/harbourmaster/store/queries.go:106-151 | A submission made at one moment of an interleaving answers every later one under its key, whatever races in between |
| Transactions.TenantsAreIsolatedThroughout | internal/harbourmaster/store/queries.go:153-169 | While nothing of a tenant's commits, nothing of that tenant's rows changes, whatever other transactions do |
| Transactions.RepeatsThroughout | internal/harbourmaster/store/queries.go:319-339 | In any interleaving a transaction reporting a recorded nonce answers Done exactly when it agrees, and changes nothing |
| Transactions.FreshNoncesThroughout | internal/harbourmaster/store/queries.go:285-301 | One reporting a nonce not recorded answers Done exactly when its request is at that moment approved and the row legal |
| Transactions.WithoutTheLockAnApprovalUnexecutes | internal/harbourmaster/store/queries.go:180-189 | Without FOR UPDATE a concrete interleaving leaves an executed request approved, its committed execution on record, the invariant broken |
| Pilot.Target.RunOne | internal/pilot/postgres/postgres.go:174-241 | On every schedule of answers it returns the phase-labelled error and the server's own row count, and the statement is in the target exactly when the server committed it |
| Pilot.ReportIsTruthful | internal/pilot/execute.go:71-113 | Over all fault schedules: committed only if applied and with the very count the server changed, a clean failure only if not applied and with count zero, no count exactly when indeterminate |
| Pilot.CommittedExactlyWhen | internal/pilot/execute.go:71-74 | Committed exactly when the statement ran and its COMMIT was acknowledged, and then with the rows it changed |
| Pilot.CleanFailuresExactlyWhen | internal/pilot/execute.go:77-98 | Rolled back exactly when COMMIT was legibly answered by an ERROR; aborted exactly when nothing was opened or the statement failed and its ROLLBACK did not |
| Pilot.IndeterminateExactlyWhen | internal/pilot/execute.go:84-112 | Indeterminate exactly when a rollback failed, or a COMMIT got no answer or one not legibly an ERROR, or the failure bears no label |
| Pilot.IndeterminateHidesBothFates | internal/pilot/execute.go:93-103 | Behind a lost COMMIT both fates are possible and give one report, so no more definite report could be true |
| Pilot.TranslatedFatalIsNotARefusal | internal/pilot/postgres/postgres.go:106-131 | In any language of the server, a session-ending answer is never classified as a refused COMMIT |
| Api.ReportsCrossTheWire | internal/harbourmaster/api/api.go:204-230 | A Pilot's legal report, marshalled, translated to the wire and back and validated, does to the tables exactly what the store does with it, unless the nonce is blank or not UTF-8 |
| Api.OkMeansRecorded | internal/harbourmaster/api/api.go:204-255 | In every run the service answers OK exactly when that outcome and count then stand recorded under a nonce that is text and not blank, and that was known or found its request approved |
| Api.CodesMean | internal/harbourmaster/api/api.go:262-271 | Let in, a call answers NotFound exactly when there is no such request and FailedPrecondition exactly when its state or a contradicted record refuses |
| Api.MistakesAreTold | internal/harbourmaster/api/api.go:92-230 | InvalidArgument exactly when a required field says nothing, the stage is not 1, the outcome is none of the four, or a count is there when it must not be or missing when it must |
| Api.CallIsApplyOrNothing | internal/harbourmaster/api/api.go:87-198 | Each call is the store's operation if the service lets it in and nothing if not, for all three |
| Api.EveryRunOfCallsIsTidy | internal/harbourmaster/api/api.go:87-178 | In every run of calls, whatever is asked: no approval at a stage other than 1 or by a blank approver, no request with a blank statement, target, role, reason or key, no blank nonce |
| Command.RecordOverTheWire | internal/harbourmaster/api/api.go:204-255 | What is answered is what stands recorded; an error means nothing changed, or the COMMIT's answer or the read after it was lost |
| Command.ExecuteCommand | cmd/pilot/main.go:78-174 | Nothing is sent unless the request was read and approved, for exactly the listed exits; otherwise sent once; what it prints is stored and true of the target, a committed count being the rows the server changed; it exits clean exactly on committed |
| EndToEnd.StoredExecutionsAreTrue | cmd/pilot/main.go:99-157 | In every run, overlaps, reused nonces, deaths and duplicate reports included, each stored execution is the truthful report of some attempt with that request and nonce, its count that of the rows really changed |
| EndToEnd.ExecKeepsSound | cmd/pilot/main.go:99-157 | Over every disciplined run each attempt sent is recorded, about to be, or came to nothing; one Pilot per request; nonces distinct |
| EndToEnd.AtMostOnce | cmd/pilot/main.go:14-31 | In every disciplined run the statement has been applied at most once ever, never while pending or while approved with nobody at work, exactly once when executed |
| EndToEnd.DuplicateIsHarmless | internal/harbourmaster/store/queries.go:379-398 | In every sound state a recorded report arriving again changes nothing at all |
| EndToEnd.OverlapAppliesTwice | cmd/pilot/main.go:99-118 | Two overlapping attempts with fresh, usable nonces and any schedules apply the statement as often as schedules had an effect; the second report lands exactly if the first was a clean failure and is otherwise refused after the fact |
| EndToEnd.ReusedNonceLosesTheRecord | cmd/pilot/main.go:17-22 | After any clean failure a re-run under its nonce leaves the tables unchanged and the request approved, and is applied exactly if its schedule had an effect |
| EndToEnd.UnusableNonceLosesTheRecord | internal/harbourmaster/api/api.go:208-210 | For every nonempty nonce and schedule the report is recorded exactly when the nonce is usable; if not, the tables are unchanged and the target is as the schedule says |
| EndToEnd.DeathLosesTheRecord | cmd/pilot/main.go:24-27 | For every schedule a death before the report leaves the tables unchanged, and breaks the rule exactly when the schedule had an effect |
| EndToEnd.RecordedIffUsable | internal/harbourmaster/api/api.go:204-230 | The first report on an approved request is recorded exactly when its nonce is usable, whatever the outcome |
| EndToEnd.RunsFromNothing | internal/harbourmaster/store/queries.go:112-236 | Submitting and approving reach from empty tables a table with an approved request on which every one of those runs goes on, keeping the same rules |
| Interleaved.ExecKeepsInv | internal/harbourmaster/store/queries.go:190-408 | Over every run of Pilots, target and transactions: each open transaction carries a Pilot's report, repeats a recorded one, or approves, and was let in by the service |
| Interleaved.EventIsAStep | internal/harbourmaster/store/queries.go:190-408 | Every event, statements of half-done transactions included, is one atomic step as seen through the committed tables, or none |
| Interleaved.RunsAreRunsOfSteps | cmd/pilot/main.go:99-157 | Refinement: every run at the grain of SQL statements is a run of single steps, and keeps the operator's rules if it does |
| Interleaved.AtMostOnceThroughout | cmd/pilot/main.go:14-31 | At most once, never while pending, exactly once when executed, in every disciplined run with all operations interleaved statement by statement and dying anywhere |
| Interleaved.StoredExecutionsAreTrueThroughout | cmd/pilot/main.go:99-157 | And disciplined or not, each stored execution is the truthful report of some attempt with that request and nonce, its count that of the rows really changed |
| Interleaved.StoredIsTidyThroughout | internal/harbourmaster/api/api.go:87-178 | In every such run nothing is stored that the service would not let in |
| Interleaved.AttemptsAreRecorded | cmd/pilot/main.go:99-157 | From every approved request with nothing recorded, an undisturbed attempt with a usable nonce is recorded, statement by statement, and moves the request as its outcome says |
| SqlLexer.SkipBlockComment | internal/harbourmaster/store/migrate.go:293-313 | The depth-counting loop ends where the recursive reading does, which PassesPieces holds against the grammar |
| SqlLexer.CopyLiteral | internal/harbourmaster/store/migrate.go:314-333 | The copying loop ends where the literal does, doubled quotes included, and has copied exactly it |
| SqlLexer.StripSQLComments | internal/harbourmaster/store/migrate.go:279-353 | The index-and-builder loop equals the recursive token-by-token reading and terminates; what that reading is, StripKeepsTheKept says |
| SqlLexer.Strip | internal/harbourmaster/store/migrate.go:279-353 | Stripping never lengthens the text |
| SqlLexer.NoTagForms | internal/harbourmaster/store/migrate.go:361-375 | Removing comments never completes a dollar tag that was not one |
| SqlLexer.TokenIsStable | internal/harbourmaster/store/migrate.go:279-353 | What each token leaves behind, read again in its new surroundings, leaves the same |
| SqlLexer.StripIsIdempotent | internal/harbourmaster/store/migrate.go:279-353 | On every text, stripping its own output changes nothing |
| SqlLexer.StripResumes | internal/harbourmaster/store/migrate.go:279-353 | From any token boundary the lexer goes on as if the text began there |
| SqlGrammar.PassesPieces | internal/harbourmaster/store/migrate.go:293-313 | Inside a comment, at whatever depth, pieces without stray markers are passed over to their end, comments among them by their own two markers |
| SqlGrammar.LexemeIsStripped | internal/harbourmaster/store/migrate.go:279-353 | Wherever a lexeme of the grammar may stand, the lexer keeps of it what is to be kept: a space for a comment nested to any depth and for a dollar body, a newline for a line comment, a literal verbatim, unterminated forms to the end |
| SqlGrammar.StripKeepsTheKept | internal/harbourmaster/store/migrate.go:279-353 | On every text written by the grammar the output is what the grammar keeps |
| SqlGrammar.EveryTextIsLexemes | internal/harbourmaster/store/migrate.go:279-353 | Every text is written by the grammar, so that settles the output on all of them |
| PhraseGuard.ContainsPhrase | internal/harbourmaster/store/migrate.go:386-411 | True exactly when some occurrence at any offset is delimited on both sides, however many undelimited or overlapping ones precede it |
| PhraseGuard.SqueezeIsCollapse | internal/harbourmaster/store/migrate.go:380-382 | Splitting into fields and joining with one space is the one-pass collapse of white space |
| PhraseGuard.CollapsedPhraseIsFound | internal/harbourmaster/store/migrate.go:209-210 | Words in any letter case with any white space between them, delimited, are found once the text is collapsed |
| PhraseGuard.RejectNonTransactional | internal/harbourmaster/store/migrate.go:188-260 | Refuses exactly when the pattern or a listed phrase stands in the stripped or the raw form; the pattern is named exactly when it matches, else the first listed phrase found |
| PhraseGuard.SplitPhraseIsRefused | internal/harbourmaster/store/migrate.go:188-260 | In any text of the grammar, a listed phrase written letter by letter in any case, its words separated by any nonempty mix of white space and comments nested to any depth, and touched by no identifier character in what is kept, is refused |
| PhraseGuard.RawPhraseIsRefused | internal/harbourmaster/store/migrate.go:189-208 | A delimited listed phrase in the raw text is refused whatever the lexer makes of it |
| PhraseGuard.HasPhraseMeans | internal/harbourmaster/store/migrate.go:386-411 | A phrase is found exactly where it stands in some letter case with no letter, digit, underscore or dollar sign touching it |
| PhraseGuard.PhrasesAsListed | internal/harbourmaster/store/migrate.go:236-247 | The list is the twelve phrases, word by word |
| PhraseGuard.ReindexMeans | internal/harbourmaster/store/migrate.go:356 | The pattern matches exactly where REINDEX, perhaps options in parentheses, and one of three targets are written in any letter case as whole words |
| History.AscendingIsUnique | internal/harbourmaster/store/migrate.go:110 | Two ascending sequences of the same numbers are one sequence, so any sort will do |
| History.SortByNumber | internal/harbourmaster/store/migrate.go:110 | The result is in order and a permutation |
| History.CheckFile | internal/harbourmaster/store/migrate.go:84-102 | A file is good exactly when it passes; a bad one is named for its first fault: suffix, name, number, or the guard's own reason |
| History.NumbersExactly | internal/harbourmaster/store/migrate.go:82-91 | A name has number n exactly when it is digits that spell n, perhaps after a plus sign, an underscore, any slug and .sql, n positive and within 64 bits |
| History.UsualNames | internal/harbourmaster/store/migrate.go:82-91 | Zeros, the decimal digits of n, an underscore, any slug and .sql is number n |
| History.CheckNumbers | internal/harbourmaster/store/migrate.go:111-126 | Of a sorted set: no error exactly when contiguous from 1; a duplicate error names a number claimed twice, a gap error the first number missing from a set without duplicates |
| History.LoadMigrationsFrom | internal/harbourmaster/store/migrate.go:74-128 | Succeeds exactly when every file passes and the numbers are a permutation of 1..n, and returns them in order; otherwise names the first file that fails and why, a number claimed twice, or the first missing |
| History.EmbedsTheFiles | internal/harbourmaster/store/migrate.go:101-108 | Entry i of the loaded set is the file numbered i + 1, with its name, its whole body and its digest |
| History.Compare | internal/harbourmaster/store/migrate.go:551-587 | nil exactly on equality, ErrPending exactly on strict prefixes, ErrSchemaMismatch otherwise |
| History.RecordsTell | internal/harbourmaster/store/migrate.go:560-579 | Two sets have one history exactly when every number, name and digest agree |
| History.Database.ApplyOne | internal/harbourmaster/store/migrate.go:707-733 | With a failure at any of its statements, DDL and record land together or neither does; a number already recorded is refused |
| History.Database.Migrate | internal/harbourmaster/store/migrate.go:592-705 | With any call or migration failing: the lock is free however it ends; history and schema grow together and only by the next entries of the one set the files hold; without failures it succeeds exactly when the history is a prefix of that set; the runtime role changes nothing |
| History.Database.Verify | internal/harbourmaster/store/migrate.go:417-441 | The comparison's verdict on what is recorded, or that the set or the history could not be read; it writes nothing |
| Migrators.ExecKeepsInv | internal/harbourmaster/store/migrate.go:592-733 | Over every interleaving of any migrators, with failures and crashes between any two steps: one lock holder, whose reading of the history is current, every row by its author |
| Migrators.HistoryOnlyGrows | internal/harbourmaster/store/migrate.go:592-733 | Over every run from every state history and schema are only appended to, and a success is never unmade |
| Migrators.RowsAreTheirAuthorsNext | internal/harbourmaster/store/migrate.go:698-702 | Row i is entry i of the set of the binary that appended it, with that entry's DDL, numbered i + 1, and no number is applied twice |
| Migrators.SuccessIsForever | internal/harbourmaster/store/migrate.go:592-705 | Once a binary's Migrate succeeded, its whole set is a prefix of the history after any further events |
| Migrators.SuccessfulBinariesAgree | internal/harbourmaster/store/migrate.go:551-587 | Of any two binaries that ever succeeded, one's set is a prefix of the other's |
| Migrators.KeyIsNeverTaken | internal/harbourmaster/store/migrate.go:638-655 | Whoever is about to apply a migration holds the lock alone and its number is free: the primary key never has to refuse |
| Migrators.MigratorsSucceed | internal/harbourmaster/store/migrate.go:592-705 | From every reachable state with the lock free, a waiting migrator that is not the runtime role and whose set the history is a prefix of can run to success, and the history is then its whole set |
| KeyCheck.CheckKeys | internal/conformance/vectors.go:154-212 | The loop over tokens with its stack of frames reaches the machine's verdict |
| KeyCheck.MachineReadsValue | internal/conformance/vectors.go:166-210 | Wherever a value is due the machine consumes a good one and leaves the stack as it was, and stops with a key error in a bad one |
| KeyCheck.CheckKeysIsExact | internal/conformance/vectors.go:154-212 | On the tokens of any documents nested to any depth it accepts exactly when keys are pairwise distinct and known at every level, and otherwise reports a key |
| KeyCheck.CheckKeysNeverPanics | internal/conformance/vectors.go:188-191 | However such a stream breaks off, the stack is never popped empty |
| Escapes.CheckEscapes | internal/conformance/vectors.go:220-271 | On any text at all no index is out of range; it returns the first problem with its surrogate, and nil exactly when the recursive scan passes |
| Escapes.CheckEscapesIsExact | internal/conformance/vectors.go:213-271 | On text made of complete escapes, their digits in either letter case, it passes exactly when every surrogate escape is half of an adjacent leading-trailing pair |
| Escapes.HexRoundTrip | internal/conformance/vectors.go:243 | Four digits that spell a code, each small or capital, read as that code |
| Escapes.Hex4IsSpelled | internal/conformance/vectors.go:243-247 | What reads as a code spells it, and four characters read as nothing exactly when one is none of the twenty-two digits |
| Escapes.AnyTextPassesIff | internal/conformance/vectors.go:220-271 | On text with stray and cut-off escapes as well it passes exactly when every surrogate escape is paired, and otherwise reports the first that is not |
| Escapes.FirstLoneMeans | internal/conformance/vectors.go:250-264 | What is reported is the first lone surrogate by position, its code, and which half it is |
| Escapes.EveryTextIsUnits | internal/conformance/vectors.go:220-271 | Every text is so built, so the verdict is settled on all of them |
| Escapes.DecodableTextPasses | internal/conformance/vectors.go:213-219 | Any text a strict reader can decode passes |
| Escapes.EscapedTextReadsBack | internal/conformance/vectors.go:224-231 | Any sequence of Unicode scalars, escaped with each digit in either letter case, passes and decodes to itself |
| Encoding.EncodedTextPasses | internal/conformance/vectors.go:220-271 | Whatever strings a tree holds, its encoding passes the scan |
| Encoding.StringReadsBack | internal/conformance/vectors.go:224-231 | Every string, encoded with short and long escapes, decodes to itself |
| Reading.ValueReadsBack | internal/conformance/vectors.go:278-320 | A tree written as text and read by the decoder's grammar, whatever follows it, is the same tree and ends where it ended |
| Reading.FileReadsBack | internal/conformance/vectors.go:278-320 | A file holding one written value reads as just that value and ends cleanly |
| Reading.PaddedFile | internal/conformance/vectors.go:278-320 | White space before a file's values changes nothing |
| Corpus.Load | internal/conformance/vectors.go:278-382 | Loads exactly the files that load as some corpus, and as that corpus; a rejected file is rejected for the first reason there is |
| Corpus.CorpusLoadsIff | internal/conformance/vectors.go:278-382 | What loads, with neither decoder nor validation mentioned: UTF-8, escapes paired, one document with good keys whose members write a legal corpus down, in any order, and nothing after it |
| Corpus.VectorLoadsIff | internal/conformance/vectors.go:345-419 | A raw vector loads as v exactly when v is legal and its members, in any order, are just those that write v: nothing null, empty or from elsewhere |
| Corpus.ScopeLoadsIff | internal/conformance/vectors.go:421-478 | The same of a scope |
| Corpus.FieldsOfTheFormat | internal/conformance/vectors.go:140-144 | The known keys are those of the three objects |
| Corpus.LoadedCorpusIsLegal | internal/conformance/vectors.go:384-478 | What loads has unique nonblank names and, per vector, exactly the one legal shape for its verdict and operation |
| Corpus.VectorRoundTrip | internal/conformance/vectors.go:99-119 | A legal vector marshalled with its omitempty tags is decoded and validated as itself, absent fields absent |
| Corpus.CorpusRoundTrip | internal/conformance/vectors.go:278-382 | A corpus is legal exactly when the text written for it, decoded again from its first character, loads as it, for any number of vectors and columns |
| Corpus.WhateverLoadsReloads | internal/conformance/vectors.go:320-328 | Whatever loads can be written out and loaded again, unchanged |
| Annotations.FillMessages | internal/schema/annotations.go:299-317 | The loops and the recursion that write into one map give the fold over all messages, nested ones after their parents, the last of a name winning |
| Annotations.IndexHoldsTheDeclared | internal/schema/annotations.go:299-317 | A name is in the index exactly when some message, nested or not, is declared under it, and leads to the last such |
| Annotations.IndexIsByDottedName | internal/schema/annotations.go:299-329 | A name is in the index exactly when a message is declared under it: package, outer messages and its own name with dots between, empty parts skipped |
| Annotations.MethodsAreNamed | internal/schema/annotations.go:81-86 | The methods met are just those of the files, each under package, service and method name with dots between |
| Annotations.KeyedMethodsAreHeard | internal/schema/annotations.go:209-261 | Of a keyed method whose input is a dot and a dotted name: exactly what is said against its key, for a name nobody declares, a field nobody has, a field that cannot carry a key, and a field that can |
| Annotations.ObeysIffNothingBreaks | internal/schema/annotations.go:103-147 | The rules hold of a method exactly when no reason holds against it |
| Annotations.CheckIdempotencyLevel | internal/schema/annotations.go:174-207 | Exactly the reasons there are between the standard level and the declared safety and idempotency |
| Annotations.CheckKey | internal/schema/annotations.go:209-240 | At most one reason, the first obstacle between the method and a field that can carry its key; none exactly when the first field of that name can |
| Annotations.CheckMethod | internal/schema/annotations.go:103-147 | A reason is given exactly when it holds of the method, once, and none exactly when every rule, stated in its own terms, is obeyed |
| Annotations.CheckAnnotations | internal/schema/annotations.go:77-101 | Visits every method of every owned file; each violation, with its file and name, is listed exactly as often as a method so declared breaks it, so none exactly when all obey |
| Compatibility.FillMethods | internal/schema/compat.go:158-169 | The three nested loops give the index of all declared methods with their files, the last of a name winning |
| Compatibility.IndexedIsDeclared | internal/schema/compat.go:158-169 | A name is in the index exactly when a method is declared under it, and leads to the last one |
| Compatibility.CompareBehaviour | internal/schema/compat.go:81-122 | A reason is given exactly when that change was made, and none exactly when the pairwise rule is kept |
| Compatibility.CheckCompatibility | internal/schema/compat.go:41-62 | Compares every method both schemas declare once, in any order, counts them, and lists each of their weakenings exactly once, in the file that now declares the method |
| Compatibility.CleanMethodsAreDecided | internal/schema/annotations.go:103-147 | In a clean schema every method, found by name, has made a decision that does not contradict itself |
| Compatibility.HarmlessStaysHarmless | internal/schema/compat.go:22-36 | One clean, compatible step keeps harmless every retry policy that was harmless, not only the one the previous schema would compile |
| Compatibility.ChainIsSafe | internal/schema/compat.go:22-36 | Over any number of versions, each clean and each compatible with the one before, no client of any version retries in a way any later version declares harmful |
| Compatibility.RuleIsExactUnlessSafe | internal/schema/compat.go:22-36 | Towards a method that is not safe the rule forbids a change exactly when it would harm the old client |
| Compatibility.RuleIsNotTransitive | internal/schema/compat.go:126-151 | Three decided declarations, adjacent ones compatible, the outer ones not |
| Compatibility.ChainKeepsTheRule | internal/schema/compat.go:41-62 | Along a chain of any length, towards a declaration that is not safe, adjacent checks imply the rule between any two versions |
| Compatibility.UndecidedLaunders | internal/schema/annotations.go:103-147 | Without the annotation rules a chain of compatible steps ends in harm |
| Compatibility.ReturningMethodIsUnprotected | internal/schema/compat.go:45-50 | For every name, a chain of clean, compatible versions in which a method leaves and returns harms its oldest client |
| ImportGraph.DriverHome | internal/harbourmaster/store/driver_confinement_test.go:212-219 | A home exactly for imports under a listed root, and that root's home, in whatever order the table is searched |
| ImportGraph.DriversByName | internal/harbourmaster/store/driver_confinement_test.go:32-39 | A driver is one of the six listed modules or a package of theirs |
| ImportGraph.HomesByName | internal/harbourmaster/store/driver_confinement_test.go:188-199 | What is cut out of the graph is exactly the store and the two Pilot adapters, by full path |
| ImportGraph.HoldersByName | internal/harbourmaster/store/driver_confinement_test.go:201-210 | A PostgreSQL driver may be held by the store and the PostgreSQL Pilot and nobody else, a MySQL driver by the MySQL Pilot and nobody else |
| ImportGraph.Traversal.ReachesDriverFrom | internal/harbourmaster/store/linked_packages_test.go:164-191 | Returns a real forbidden path, or has marked its start and explored whatever it newly marked; the unvisited nodes shrink |
| ImportGraph.ExploredMeansSafe | internal/harbourmaster/store/linked_packages_test.go:164-191 | From a set of marked nodes that are all explored no uncut path leads to a forbidden driver |
| ImportGraph.ReachesDriver | internal/harbourmaster/store/linked_packages_test.go:139-156 | On every finite graph, cycles included, reports exactly when some uncut path ends in a driver the origin may not hold, and reports such a path |
| ImportGraph.StrangersMayReachNone | internal/harbourmaster/store/linked_packages_test.go:142-191 | For a package that is no home there is something to report exactly when any chain of imports, not through a home, ends in any driver at all, and what is reported is such a chain |
| ImportGraph.OnlyThroughHomes | internal/harbourmaster/store/linked_packages_test.go:142-146 | Where the search is silent, every chain to a driver the package may not hold passes through a permitted home |

## Left out

- Unconditional exactly-once execution: the code does not provide it, as its own documentation says and four lemmas above show.
- HTTP and Connect plumbing, flag parsing, signals, server start-up, the skeleton gate: no decision logic.
- PostgreSQL, pgx and database/sql beyond what is relied on: `FOR UPDATE` waits and then reads the latest committed row, an upsert returns the surviving row, a transaction commits all or nothing, an ERROR in answer to COMMIT means rolled back, and the extended protocol runs one command only.
- A statement that is itself transaction control (`COMMIT` submitted as the statement): the model's statement is an effect that its transaction commits or does not.
- Submit's wait on a conflicting insertion: a submission is one statement and one step, so its internal wait for the unique index is not broken up.
- Lock timeouts, connection pools, `search_path`, grants: server configuration. A timeout is an ended transaction or migrator.
- Liveness: no transaction, Pilot or migrator is shown to get its turn.
- SHA-256, random bytes and base32: digests are equal or not, references arbitrary.
- `created_at` and `at` timestamps, and the contents of the request read back into successful answers.
- Byte-level JSON: the reader has the whole grammar over code points, not the decoder's depth limit nor its folding of field names, which the check on keys makes moot.
- Upper-casing and white space beyond ASCII, where Go's functions change lengths or read several bytes as one character.
- The lexer's divergence from PostgreSQL (escape strings, Unicode dollar tags), which the source documents: the specification is the code's own lexer.
- Error wording, report sorting and which of several violations is listed first.
- `normalise`, `go list`, the walk over files and symbolic links, `UncoveredProtoFiles`, schemacheck's file reading, scripts and the website: I/O or one-branch facts.
- Corpus.Load: in a text that breaks off inside a document the check on keys is made on the documents before it, so the error named there may be another than the source's; that the file is rejected is not in doubt.
- A reference that is not UTF-8: the request cannot be fetched and nothing is sent.
