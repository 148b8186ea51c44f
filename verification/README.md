# Verified model of the stateful cores

A Dafny model of the parts of the agent runner whose value lies in what they guarantee over whole runs: the
hash-chained audit log, delegated approvals, the approval gate, single-use tokens, the connector rate limiter, the
include copier, output contracts with their text repair, and spend figures. Objects that the program changes in place
are classes, loops are loops; each method is proved equal to a specification function, and the properties below are
proved of those functions over every input, run or interleaving. `dafny verify dfyconfig.toml` checks the project.

| module | what it holds |
|---|---|
| `AuditRows`, `AuditLog` | rows, the declarative chain predicate, the verifier; finding the head, appending, rotating, reading back |
| `AuditProtocol` | any number of threads of any number of processes appending, every shared access a step of its own, errors included |
| `AuditCalls` | whose events the rows of the protocol are |
| `ProtocolInterference` | one thread by itself does the sequential append; two processes can fork the chain |
| `TamperEvidence`, `WholeRunEvidence` | what an injective digest adds: the newest digest fixes every file of a log |
| `Delegations`, `Grants`, `DelegationRuns` | granting, revoking, finding, and their outcomes field by field; any number of processes whose loads and saves interleave |
| `Gates`, `GateVerdicts`, `VoteOrder` | evaluating a paused gate, and its answers told from the votes; when the order of its votes matters |
| `GateRuns`, `PauseRecords` | the life of a gate under touches and queries; saving and loading it |
| `Tokens` | bootstrap, session and action tokens |
| `RateLimits` | the sliding window |
| `IncludeCopies` | the include walk of the example copier |
| `Contracts`, `ContractLaws`, `ContractPaths`, `Repairs` | enforcing an output contract; what it guarantees; every way through it; dropping trailing commas |
| `Ledgers`, `SpendReports`, `MemberSpend`, `MemberReports` | spend by day, workflow, actor, model, label; spend by member and role |
| `Basics`, `Texts`, `Dictionaries` | optional values, strings, insertion-ordered dictionaries |

## What the code does where its documentation or a first reading says otherwise

The model follows the code. Where a hoped-for property is false there is a lemma with an input that shows it and a
lemma saying exactly when it holds.

- An unchained row behind a chained one passes verification, and the next append then skips a number and breaks the
  file (`AuditLog.AppendCanBreakChain`); `AuditLog.AppendKeepsChainIff` says exactly when an append is safe.
- The lock that keeps appends apart belongs to one process (`src/readyagents/audit.py:24-25`), while separate processes
  write the same file (`src/readyagents/cli/delegations.py:67-77`). Two of them can fork the chain
  (`ProtocolInterference.ProcessesCanFork`, against `src/readyagents/audit.py:36`);
  `ProtocolInterference.WriteKeepsFileIff` says exactly which write breaks the file. Files stay intact while no two
  processes are in the critical section together (`AuditProtocol.ParallelAppendsNeverFork`).
- Verification looks at one file at a time (`src/readyagents/audit.py:210-215`) and accepts any previous digest on the
  anchor that opens a file (`src/readyagents/audit.py:187-188`), so behind a rotation an older file can be replaced and
  everything still verifies (`TamperEvidence.OlderFileCanBeReplaced`). `TamperEvidence.HeadFixesLogIff` and
  `WholeRunEvidence.HeadVouchesForRun` say exactly what has to be looked at besides: that anchors are in place and carry
  the head of the file before.
- `docs/approvals.md:97` says that delegation chains are refused. Only one direction is checked: granting bob to carol
  first and alice to bob second is accepted (`DelegationRuns.TwoHopsAreAccepted`); the exact condition is
  `DelegationRuns.AddKeepsChainFreeIff`. Cycles are still impossible (`DelegationRuns.NeverCyclic`).
- A scope of blanks is stored as an empty text and read back as no scope, so it can widen an existing grant
  (`DelegationRuns.BlankScopeIsAccepted`, `DelegationRuns.AddKeepsScopesApartIff`).
- A revocation can be undone by a process that loaded the store before it and saves after it
  (`DelegationRuns.RevocationCanBeLost`); `DelegationRuns.RevocationHoldsIff` says exactly when it lasts.
- In the same way an accepted grant can be lost (`DelegationRuns.GrantCanBeLost`); `DelegationRuns.GrantStaysIff` says
  exactly when it stays.
- An action token is refused again only until 4096 other tokens were accepted (`Tokens.TokenCanBeReplayed`,
  `Tokens.AcceptedAgainIff`).
- Trailing commas survive the repair when more than eight stand in one run (`Repairs.NineCommasLeaveOne`,
  `Repairs.CleanIffShortRuns`).
- The repair does not know strings: a comma before a bracket inside a literal goes too (`Repairs.LiteralCanChange`);
  `Repairs.LiteralsSurviveIff` says exactly when literals survive.
- A gate whose `on_expire` is a text of blanks does not come back from saving as it was
  (`PauseRecords.BlankExpiryIsLost`), though it behaves the same (`PauseRecords.LoadedIsWellFormedIff`).
- A run called `anon-0` pushes an entry without a run id out of the spend figures (`Ledgers.NamesCanCollide`);
  `Ledgers.ConservedIff` says exactly when nothing is lost.
- A colon in a member id can make one member's figures overwrite another's (`MemberSpend.ColonsCanCollide`,
  `MemberSpend.MembersConserveIff`).

Two more concern the evaluation of a gate by itself, on votes that come from elsewhere. A touch never records a second
vote by one actor, so neither arises in a run (`GateRuns.RunKeepsOneEach`, `GateRuns.OrderNeverMattersInRun`).

- The order of the votes can decide the outcome (`VoteOrder.OrderCanMatter`), exactly when
  `VoteOrder.OrderMattersIff` says.
- A second approval by an actor already counted can turn a pending gate into a rejected one
  (`Gates.RepeatedApprovalCanReject`, `Gates.RepeatedApprovalIff`).

The include copier's cycle check can only ever fire for the root; cycles among included files end quietly because a
file met before is skipped (`IncludeCopies.CycleIsTrue`, `IncludeCopies.CopyIncludeTree`).

## Model

| member | source | states |
|---|---|---|
| AuditRows.VerifyAuditFile | src/readyagents/audit.py:141-207 | The loop reports ok exactly when the declarative chain predicate holds; on ok the totals add up and the unchained ranges are the sorted, disjoint, maximal runs covering exactly the unchained entries; on failure reason and place are those of the first line that breaks the chain, and counts and ranges are exact for the lines before it. |
| AuditRows.StopSays | src/readyagents/audit.py:157-203 | A report that stops names the line, or the number of the row, and what is wrong: no JSON, no object, a digest that does not fit, a link that does not, or else a gap in the numbers with the number before it. |
| AuditRows.TakeChained | src/readyagents/audit.py:177-206 | One chained row on from a sound walk, the report is either final and right about the whole file, or the walk is sound one row further. |
| AuditRows.TakeUnchained | src/readyagents/audit.py:171-176 | One unchained row on from a sound walk, the walk is sound one row further and the open run began where it says. |
| AuditRows.StopIllegible | src/readyagents/audit.py:155-169 | At a line that is no JSON object the report is final and right about the whole file. |
| AuditRows.CheckRow | src/readyagents/audit.py:180-202 | Behind a sound chain a row is found free of faults if and only if the chain with it is sound; of several faults the digest is reported before the link and the link before the number. |
| AuditRows.LinkedSnoc | src/readyagents/audit.py:180-205 | A chain with one more row is sound exactly when the shorter one is and the row is sealed and attaches to its head. |
| AuditRows.ChainHoldsPrefix | src/readyagents/audit.py:141-207 | Cutting lines off the end never breaks a sound file. |
| AuditRows.BrokenNext | src/readyagents/audit.py:150-203 | Line by line, when the file up to the next line is still sound: illegible lines break it, blank and unchained ones never do, a chained one exactly when it does not attach. |
| AuditRows.NextUnchained | src/readyagents/audit.py:172-176 | An unchained entry opens a run or extends the open one, and the ranges stay exactly the maximal unchained runs. |
| AuditRows.NextChained | src/readyagents/audit.py:222-225 | A chained entry closes the open run, and the closed ranges stay exact. |
| AuditLog.TailChain | src/readyagents/audit.py:254-275 | The loop finds the head that the walk over all lines defines; a missing file gives zero and the start marker. |
| AuditLog.HeadMeans | src/readyagents/audit.py:254-275 | The digest found is that of the last chained row; the number is that row's, pushed up by an unchained entry behind it if its position is higher. |
| AuditLog.WriteKeepsChainIff | src/readyagents/audit.py:58-71 | A row made for any head, read from this file or not, keeps a sound file sound if and only if it names the digest of the last chained row and the number after it (or there is no chained row to follow and it may open a chain, or the last is numbered 0). |
| AuditLog.AppendKeepsChainIff | src/readyagents/audit.py:58-71 | An append keeps a sound file sound if and only if no unchained entry behind the last chained row has a position above that row's number (or there is no chained row, or it is numbered 0). |
| AuditLog.AppendCanBreakChain | src/readyagents/audit.py:254-275 | A concrete sound file that one append breaks. |
| AuditLog.AppendKeepsGood | src/readyagents/audit.py:58-71 | A sound file whose unchained rows are all in front stays so under every append, and gains exactly one chained row at the end. |
| AuditLog.RotationKeepsSound | src/readyagents/audit.py:278-306 | A rotation keeps every file sound, keeps the numbering without gaps, anchors the new file to the head of the old one, and leaves the caller's events unchanged. |
| AuditLog.AppendKeepsSound | src/readyagents/audit.py:47-78 | An append keeps every file sound and anchored and adds exactly its event at the end of the log. |
| AuditLog.AppendPlaces | src/readyagents/audit.py:62-77 | The row goes to the end of the current file, new when missing; a file at or over a positive limit becomes the next numbered one and the row comes second in a new file. |
| AuditLog.RunLog.constructor | src/readyagents/audit.py:254-256 | A log that is missing, or that holds only rows from before chaining, is sound, and its events are those rows. |
| AuditLog.RunLog.FirstFree | src/readyagents/audit.py:281-286 | The number chosen is the first that no rotated file has. |
| AuditLog.RunLog.RotateIfNeeded | src/readyagents/audit.py:278-306 | A file of at least the limit becomes the next numbered file and a new one holding only the anchor begins; otherwise nothing changes; the caller's events stay as they were. |
| AuditLog.RunLog.Append | src/readyagents/audit.py:47-78 | After an append the log is sound, the events read back are the old ones followed by this one, the files are those of the two-phase specification, and the last row of all has every key of the event with the caller's value, the current time exactly if the event had none, and no other key. |
| AuditLog.RunLog.WriteRow | src/readyagents/audit.py:61-77 | One sealed row is added behind the current head, and nothing else. |
| AuditLog.RunLog.NextRow | src/readyagents/audit.py:66-69 | The row carries the head's digest, the next number and its own digest. |
| AuditLog.RunLog.ListFiles | src/readyagents/audit.py:81-95 | Every rotated file in order, then the current one: none is missed. |
| AuditLog.RunLog.ReadEvents | src/readyagents/audit.py:98-102 | The rows returned are all rows of all files in order, the last line of the newest file last; without their chain keys they are the whole log, and without rotation anchors what callers wrote. |
| AuditLog.ReadFileEvents | src/readyagents/audit.py:238-251 | The rows of one file in order, chain keys included; blank and illegible lines are passed over. |
| AuditLog.ListedEvents | src/readyagents/audit.py:81-102 | The rows of the listed files, one file after the other, carry exactly the events of the log in order. |
| AuditLog.ObjectIsRead | src/readyagents/audit.py:238-251 | Every object of a file is read, at the place given by the number of objects in front of it. |
| AuditLog.RowsCount | src/readyagents/audit.py:238-251 | As many rows are read from a file as it has objects. |
| AuditLog.FileIsRead | src/readyagents/audit.py:98-102 | Every file is read whole, behind the files in front of it. |
| AuditLog.BegunSays | src/readyagents/audit.py:289-298 | The row that begins a file names the event, the run, the file before, its last number and digest, and carries its own digest. |
| AuditProtocol.MutualExclusion | src/readyagents/audit.py:228-235 | In every run of any number of processes, two threads of one process are never between taking and giving back the lock of the file at the same time, although the lock itself is created on demand by racing threads. |
| AuditProtocol.RunKeepsLocks | src/readyagents/audit.py:24-25 | In every run of any processes a thread on its way to the log knows the one lock its process has registered, only the holder of the registry's guard looks it up or creates it, and a thread inside owns it. |
| AuditProtocol.StepKeepsInv | src/readyagents/audit.py:47-78 | Every step of every thread, errors included, keeps the lock facts of all processes; taken while no two processes are in the critical section, it keeps the file facts and the soundness of all files too. |
| AuditProtocol.RunKeepsInv | src/readyagents/audit.py:47-78 | The invariant holds at every moment of every interleaving of the threads of one process, or of several of which no two are ever inside together, from an empty log or one of legacy rows only. |
| AuditProtocol.ParallelAppendsNeverFork | src/readyagents/audit.py:35-39 | Whatever the interleaving of such threads, the rotate sizes and the errors, every file that exists at any moment is one the verifier reports as intact. |
| AuditProtocol.NothingLostOrReordered | src/readyagents/audit.py:81-102 | At every moment of every such run rotated files are numbered 1..n and reading all files back gives exactly the events written, in the order they were written. |
| AuditProtocol.EveryFileIsAnchored | src/readyagents/audit.py:278-306 | In every such run, errors included, the file after a rotated one opens with the anchor naming its predecessor and that file's last digest and number if and only if no error cut that rotation short between renaming and reopening (the only-if when no caller writes anchors). |
| AuditCalls.EveryRowHasItsCall | src/readyagents/audit.py:56-78 | In every run of any processes, errors included, every event written bears the event of a call of its own, made by the thread that wrote it: every key with the caller's value, a time exactly if the event had none, no other key; no call is written twice. |
| AuditCalls.ThreadsCarryCalls | src/readyagents/audit.py:56-78 | A thread on its way to the write carries the event of its last call, which is not written yet. |
| ProtocolInterference.AloneIsSequential | src/readyagents/audit.py:47-78 | A thread that is not interfered with goes through all the steps and leaves exactly what the sequential append leaves, so the two models are of one program. |
| ProtocolInterference.WriteKeepsFileIff | src/readyagents/audit.py:47-78 | In any state of any number of processes, a write keeps an intact file intact if and only if its row attaches to what the file ends with by then. |
| ProtocolInterference.ProcessesCanFork | src/readyagents/audit.py:24-25 | Two threads of different processes each take the lock of their own registry, read one head and write: after the first row the file is intact, after the second it is not. |
| TamperEvidence.SameHeadSameTail | src/readyagents/audit.py:180-205 | Backwards along the previous-digest links, two sound chains with one head agree row by row as far back as both reach. |
| TamperEvidence.TamperingShows | src/readyagents/audit.py:42-44 | Two files that both verify, with as many chained rows and one final digest, hold identical chained rows. |
| TamperEvidence.HeadFixesFile | src/readyagents/audit.py:180-205 | When no digest is the start marker and anchors only open files, the final digest alone fixes the chained rows of a file: cutting rows off the front shows too. |
| TamperEvidence.HeadFixesLog | src/readyagents/audit.py:289-298 | Of two logs that are each chained across their rotations, equal newest digests mean equally many files and the same chained rows in each. |
| TamperEvidence.HeadFixesLogIff | src/readyagents/audit.py:210-215 | A log whose files each verify, as the directory check asks, and that ends in the newest digest of a chained log has the same rows in the same files if and only if its anchors are where rotations put them and each carries the head of the file before. |
| TamperEvidence.OlderFileCanBeReplaced | src/readyagents/audit.py:187-188 | Two logs of which every file verifies, with one newest digest and different rows in the older file. |
| TamperEvidence.AnchorCarriesHead | src/readyagents/audit.py:289-298 | The file after a rotation opens with an anchor whose previous digest is the old file's head, and whose previous number is that of its last chained row. |
| WholeRunEvidence.RunsLeaveChainedLogs | src/readyagents/audit.py:47-78 | Every interleaving of the threads of one process, or of several never inside together, from nothing or from rows written before chaining, in which no rotation is cut short and callers leave the anchor name alone, ends in a log chained across its rotations. |
| WholeRunEvidence.HeadVouchesForRun | src/readyagents/audit.py:141-215 | Any other log whose files each verify and that ends in the newest digest of such a run has the same files with the same chained rows if and only if its anchors are in place and each carries the head of the file before, which verification does not look at. |
| Delegations.Load | src/readyagents/approvals/delegate.py:53-105 | Loading keeps every item in order and changes only empty scopes, which become no scope. |
| Delegations.Store.AddDelegation | src/readyagents/approvals/delegate.py:125-177 | The scan returns the refusal of the first item in the way, request errors first; an accepted entry is appended to what was loaded, a refused one changes nothing. |
| Delegations.Store.Scan | src/readyagents/approvals/delegate.py:146-166 | The loop over the stored items ends with the refusal of the first item in the way, and with none when none is. |
| Delegations.Store.RevokeDelegation | src/readyagents/approvals/delegate.py:180-192 | Exactly the first item with that id becomes revoked; with no such item nothing is saved. |
| Delegations.Store.Locate | src/readyagents/approvals/delegate.py:183-189 | The loop ends at the first item with the id. |
| Delegations.IndexOfFirst | src/readyagents/approvals/delegate.py:183-189 | The position used is that of the first item with the id, and there is none exactly when no item has it. |
| Delegations.NoConflict | src/readyagents/approvals/delegate.py:142-166 | A request passes the scan if and only if no single stored item stands in its way. |
| Grants.GrantedIff | src/readyagents/approvals/delegate.py:125-177 | A request is accepted if and only if both names are non-blank and differ when trimmed and folded, its end is a time after the stamp, and no stored item in force ends at the delegator or gives the same pair everything, the wanted scope, or any scope when none is wanted; every field of the stored entry is given. |
| Grants.RefusalMeans | src/readyagents/approvals/delegate.py:135-166 | Which refusal each failing check gives, those of the request in their order first, then that of the first item in the way, a chain before an overlap before a widening. |
| Grants.RevokedMeans | src/readyagents/approvals/delegate.py:180-192 | Item by item, after a revocation only the mark of the first item with the id differs. |
| Grants.ServesMeans | src/readyagents/approvals/delegate.py:195-219 | A stored item lets an actor stand in exactly when it is in force, given to that actor by name, and has no scope, or no role is asked for, or its scope is one of those asked for. |
| Texts.StripDrops | src/readyagents/approvals/delegate.py:134-135 | Trimming a name drops white space at its two ends and nothing else. |
| Delegations.Store.FindDelegation | src/readyagents/approvals/delegate.py:195-219 | The answer is the first active delegation to the actor whose scope admits one of the wanted roles, and none exactly when there is none. |
| DelegationRuns.AddKeepsOrder | src/readyagents/approvals/delegate.py:142-157 | An accepted grant keeps the order (no active item ends where itself or a later active one starts), even if the clock moved on since its check. |
| DelegationRuns.OrderedIsAcyclic | src/readyagents/approvals/delegate.py:142-157 | In that order no walk of active delegations, of any length, returns to its start. |
| DelegationRuns.NeverCyclic | src/readyagents/approvals/delegate.py:125-192 | At every moment of every run of grants and revocations by any number of processes, loads and saves interleaved, the active delegations have no cycle, now or later. |
| DelegationRuns.AddKeepsScopesApartIff | src/readyagents/approvals/delegate.py:158-166 | An accepted grant keeps two active grants of a pair in different scopes if and only if it does not put a scope of blanks beside an active one. |
| DelegationRuns.BlankScopeIsAccepted | src/readyagents/approvals/delegate.py:158-166 | Beside an active grant of a scope, a request with a scope of blanks is accepted and the two are not kept apart. |
| DelegationRuns.NeverOverlapping | src/readyagents/approvals/delegate.py:158-166 | In every run without scopes of blanks, two active grants for one pair both carry a scope and the scopes differ, in the store and in every loaded copy. |
| DelegationRuns.AddKeepsChainFreeIff | src/readyagents/approvals/delegate.py:150-157 | An accepted grant leaves no chain if and only if it is over once stored in whole seconds, or its delegate gives no active delegation. |
| DelegationRuns.TwoHopsAreAccepted | src/readyagents/approvals/delegate.py:150-157 | Two accepted grants that form a chain. |
| DelegationRuns.RevocationHoldsIff | src/readyagents/approvals/delegate.py:180-192 | With no active item of an id stored, no continuation that does not give the id out anew ever stores one again if and only if no process is about to save a copy that holds one; a copy whose save will be refused, or that revokes that item, does no harm. |
| DelegationRuns.RevocationSticks | src/readyagents/approvals/delegate.py:180-192 | When no loaded copy holds it unrevoked at all, a revoked delegation is never active again in any continuation, at any time. |
| DelegationRuns.RevocationCanBeLost | src/readyagents/approvals/delegate.py:180-192 | Five steps of two processes after which a revoked grant is active again. |
| DelegationRuns.GrantStaysIff | src/readyagents/approvals/delegate.py:125-192 | A stored grant is still stored, revoked or not, after every continuation if and only if no process is about to save a copy that lacks it. |
| DelegationRuns.GrantCanBeLost | src/readyagents/approvals/delegate.py:125-177 | Two processes load the empty store and both save an accepted grant: the first is gone. |
| Gates.EvaluateGate | src/readyagents/approvals/gate.py:264-374 | The evaluation, deduplication loop included, gives the outcome of the specification on every gate, clock and mode. |
| Gates.Deduplicate | src/readyagents/approvals/gate.py:324-333 | The loop keeps the first vote of every voter, as many as there are distinct normalised voters. |
| Gates.FirstVotesCount | src/readyagents/approvals/gate.py:324-333 | The votes kept are as many as the distinct normalised names among all votes, and have the same names. |
| GateVerdicts.VerdictMeans | src/readyagents/approvals/gate.py:313-374 | A gate not looked at as overdue is approved if and only if no rejection short-circuits it, every wanted role has a counting vote that speaks for it, and the distinct approvers (or the approvals) are as many as required; rejected if and only if there is a rejection and it short-circuits, or a role is missing, or the approvals are too few while the votes are enough; else pending. |
| GateVerdicts.OverdueMeans | src/readyagents/approvals/gate.py:284-311 | From the deadline on: escalated if told to and not yet escalated, expired if told to fail or escalated before, and rejected otherwise. |
| GateVerdicts.AnswerCarries | src/readyagents/approvals/gate.py:279-283 | The deadline, the clock and the time waited since the pause, never negative and absent without a readable start. |
| GateVerdicts.FirstVotesAre | src/readyagents/approvals/gate.py:324-333 | The votes that count are exactly those at positions that are their voters' first approvals. |
| VoteOrder.FirstVotesAreOneEach | src/readyagents/approvals/gate.py:324-333 | The votes kept are some of those cast, no two by one voter, and one of every voter. |
| VoteOrder.LabelsSettledIff | src/readyagents/approvals/gate.py:324-336 | The roles that the votes kept speak for are the same in every order of the votes if and only if every role anybody speaks for is some voter's only one. |
| VoteOrder.OrderMattersIff | src/readyagents/approvals/gate.py:264-374 | For every gate, clock and mode, some order of the votes gives another outcome if and only if the gate is not overdue, wants distinct actors and all of its roles, the role condition decides (no rejection settles it, and either the quorum is met or a rejection is there while votes are missing), and some choice of one vote per voter speaks for all roles while some role is nobody's only one. |
| VoteOrder.AnyRolesOrderFreeIff | src/readyagents/approvals/gate.py:264-374 | For a gate where the role condition decides, the order is irrelevant whatever roles are declared if and only if every role approved for is some voter's only one. |
| VoteOrder.OrderDoesNotMatter | src/readyagents/approvals/gate.py:264-374 | In particular any permutation of the votes gives the same outcome when nobody approved for two roles, or the gate does not want distinct actors and all roles. |
| VoteOrder.OrderCanMatter | src/readyagents/approvals/gate.py:324-351 | Two votes that approve in one order and leave the gate pending in the other. |
| Gates.ApprovalSurvives | src/readyagents/approvals/gate.py:313-374 | An approved gate keeps its outcome under every later vote that does not reject, and under every vote at all when one rejection does not decide. |
| Gates.RepeatedApprovalIff | src/readyagents/approvals/gate.py:313-374 | On its evaluation alone, a second approval by a counted actor leaves the status as it is except in exactly one case: it brings a pending gate with rejections to the number of votes required. |
| Gates.RepeatedApprovalCanReject | src/readyagents/approvals/gate.py:359-368 | Any approval and any rejection of a gate wanting three votes, and the approval repeated, turn pending into rejected. |
| GateRuns.Gate.TouchGate | src/readyagents/workflow/nodes.py:1154-1364 | One resume of the run, with its two or three evaluations and its search for an earlier vote by the same actor, leaves the gate and the report of the specification. |
| GateRuns.FindVote | src/readyagents/workflow/nodes.py:1268-1275 | The vote found is the first one by the actor, and there is none exactly when the actor is not among the voters. |
| GateRuns.TouchMeans | src/readyagents/workflow/nodes.py:1154-1364 | A decided gate is left alone and reported; a pending one takes the vote if it is its voter's first, and reports the new answer; one due for escalation gets the targets as roles and eligible voters and the time, and if pending but for its deadline takes the vote in the same way. |
| GateRuns.RunKeepsOneEach | src/readyagents/workflow/nodes.py:1268-1317 | A gate that starts without two votes by one voter never records two, over any run of touches and queries. |
| GateRuns.OrderNeverMattersInRun | src/readyagents/workflow/nodes.py:1268-1317 | At every moment of such a run the outcome, at any time and in both modes, is the one every other order of the recorded votes would give. |
| GateRuns.NoSecondEscalation | src/readyagents/workflow/nodes.py:1360-1363 | The branch that escalates after the vote is never taken. |
| GateRuns.RunKeeps | src/readyagents/approvals/gate.py:408-414 | Over any run of touches and queries the deadline and its action never change, votes are only added, and an escalation is never forgotten. |
| GateRuns.EscalatesAtMostOnce | src/readyagents/approvals/gate.py:286-296 | Of all the touches of a run at most one finds the gate due for escalation. |
| GateRuns.NothingAfterDeadline | src/readyagents/approvals/gate.py:284-311 | Once a touch has seen the deadline passed, every later touch or query reports rejected or expired and changes nothing, whatever votes arrive. |
| GateRuns.QueryAfterDeadline | src/readyagents/approvals/gate.py:284-311 | What a query past the deadline foretells: rejected or expired is what every later look reports, whatever votes arrive; escalated is what the very next touch finds. |
| GateRuns.EscalatingTouchStillCounts | src/readyagents/workflow/nodes.py:1154-1169 | The touch that escalates counts the votes as if there were no deadline, once; afterwards the gate is expired. |
| PauseRecords.VoteBackIff | src/readyagents/approvals/gate.py:88-98 | A vote saved and read back is the same vote if and only if it is well formed. |
| PauseRecords.LoadedBack | src/readyagents/approvals/gate.py:130-223 | Saving and loading always succeeds and changes a gate only in the listed normalisations. |
| PauseRecords.FlagsSay | src/readyagents/approvals/gate.py:130-223 | What the number of approvals and each flag of a record that loads say about the gate, and what they are when missing. |
| PauseRecords.TimesSay | src/readyagents/approvals/gate.py:130-223 | What each time of a record says, and that a missing one is none. |
| PauseRecords.TextsSay | src/readyagents/approvals/gate.py:130-223 | What the other texts say, trimmed and in lower case where they are, and what they are when missing. |
| PauseRecords.RequireSays | src/readyagents/approvals/gate.py:130-223 | Which roles are wanted is what the record says, any of them when it says nothing. |
| PauseRecords.ListsSay | src/readyagents/approvals/gate.py:130-223 | Each list of names is the one under its key, empty when missing. |
| PauseRecords.VotesSay | src/readyagents/approvals/gate.py:130-223 | The votes are those of the objects listed, one each, in order. |
| PauseRecords.VoteSays | src/readyagents/approvals/gate.py:152-163 | What each key of a vote says, and what it is when missing. |
| PauseRecords.ReloadIsIdentityIff | src/readyagents/approvals/gate.py:130-223 | Loading what was saved gives back the gate, votes included, if and only if the gate is well formed. |
| PauseRecords.ReloadingIsInvisible | src/readyagents/approvals/gate.py:130-223 | A well-formed gate saved and loaded before every look of its life is at every moment the gate that was never saved. |
| PauseRecords.LoadedIsWellFormedIff | src/readyagents/approvals/gate.py:152-223 | A record that loads gives a well-formed gate if and only if its `on_expire` is not a text of blanks; such a gate evaluates like one that says nothing about expiry. |
| PauseRecords.BlankExpiryIsLost | src/readyagents/approvals/gate.py:130-223 | A gate whose `on_expire` is a blank loads with the empty text, and after the next save with nothing. |
| Tokens.TokenService.IssueAction | src/readyagents/approvals/tokens.py:97-118 | The token issued passes every check but the replay check for exactly the scope it was issued for, until it expires. |
| Tokens.TokenService.ConsumeAction | src/readyagents/approvals/tokens.py:120-170 | A token is accepted exactly when it is signed, for this purpose and scope, in time, and its nonce is not remembered; the memory becomes the last 4096 accepted nonces. |
| Tokens.TokenService.Remember | src/readyagents/approvals/tokens.py:167-170 | The memory becomes the last 4096 of the remembered nonces and this one, oldest dropped first. |
| Tokens.TokenService.ConsumeBootstrap | src/readyagents/approvals/tokens.py:74-83 | A bootstrap token opens a session exactly when it is known and in time, and is gone afterwards whatever the answer. |
| Tokens.TokenService.VerifySession | src/readyagents/approvals/tokens.py:85-95 | A session is good until it expires, and a bad one is forgotten. |
| Tokens.Drive | src/readyagents/approvals/tokens.py:164-170 | Over any run of presentations the memory holds exactly the last accepted nonces in order, and every answer is the one the whole history calls for. |
| Tokens.RepeatsAreFarApart | src/readyagents/approvals/tokens.py:164-170 | Two acceptances of one nonce have at least 4096 other acceptances between them. |
| Tokens.AcceptedAgainIff | src/readyagents/approvals/tokens.py:160-170 | A token accepted before is accepted again if and only if at least 4096 acceptances have happened since. |
| Tokens.TokenCanBeReplayed | src/readyagents/approvals/tokens.py:164-170 | A run of more than 4096 accepted tokens after which the first is accepted again. |
| Tokens.DistinctRunIsAccepted | src/readyagents/approvals/tokens.py:120-170 | Tokens that are in order and all different are all accepted. |
| Tokens.SpentAtMostOncePerIssue | src/readyagents/approvals/tokens.py:67-83 | A bootstrap token is accepted no more often than it was issued, less one while it is still unspent. |
| Tokens.DriveBootstrap | src/readyagents/approvals/tokens.py:67-83 | The service, driven through any run, accepts a bootstrap token at most once per issue. |
| RateLimits.RateLimiter.constructor | src/readyagents/connectors/context.py:45-48 | At least one request and a window of at least a millisecond, whatever was asked for; no hits yet. |
| RateLimits.RateLimiter.Check | src/readyagents/connectors/context.py:50-56 | The pruned list answers as the full history of accepted hits would: refused exactly when that many lie in the closed window ending now. |
| RateLimits.SinceSince | src/readyagents/connectors/context.py:51-53 | Pruning again and again loses nothing that a later cutoff still needs. |
| RateLimits.CountInMeans | src/readyagents/connectors/context.py:51-53 | Both ends of the window belong to it. |
| RateLimits.NeverTooMany | src/readyagents/connectors/context.py:44-56 | For every run of calls at non-decreasing times, no closed interval as long as the window holds more accepted hits than allowed. |
| RateLimits.RefusedForCause | src/readyagents/connectors/context.py:53-55 | A refused call has exactly the allowed number of accepted hits in the window that ends now. |
| RateLimits.Drive | src/readyagents/connectors/context.py:44-56 | The limiter driven through any such run decides every call as the full history does. |
| IncludeCopies.Copier.CopyIncludesFrom | src/readyagents/examples.py:175-241 | The recursive copy keeps its books, leaves what was there before untouched, names a true cause when it fails, and finishes its file and everything newly met when it succeeds. |
| IncludeCopies.Copier.CopyInclude | src/readyagents/examples.py:204-241 | One include: refused if it escapes, is missing or would overwrite; skipped if met before; otherwise copied once and descended into. |
| IncludeCopies.CycleIsTrue | src/readyagents/examples.py:188-194 | The stack check can only fire for the root, and then the root includes itself through some walk. |
| IncludeCopies.TooDeepIsTrue | src/readyagents/examples.py:195-201 | The depth check fires only at the end of a real walk of nine different files from the root. |
| IncludeCopies.DestInjective | src/readyagents/examples.py:244-247 | Different files below the top directory go to different places. |
| IncludeCopies.DestMeans | src/readyagents/examples.py:244-247 | A file keeps its place relative to the top directory. |
| IncludeCopies.ClosedHasReachable | src/readyagents/examples.py:175-241 | A closed set of files that has the root's includes has everything the root reaches. |
| IncludeCopies.CopyIncludeTree | src/readyagents/examples.py:144-172 | On success the copies are exactly the files reachable from the root, each once to a place of its own with its own bytes, and the root is on no cycle; a failure has a true cause; a root with none of the causes is copied. |
| IncludeCopies.CopyIsComplete | src/readyagents/examples.py:144-241 | Books that are closed under inclusion describe exactly the reachable files. |
| IncludeCopies.NoCauseNoFailure | src/readyagents/examples.py:188-229 | No failure can be justified for a root that is copyable and has no walk beyond the depth limit. |
| Contracts.Engine.EnforceContract | src/readyagents/contracts/enforce.py:49-166 | The branching engine returns or raises what the specification says, with the same calls made, decision left and report stored. |
| Contracts.Engine.ModelRepairLoop | src/readyagents/contracts/enforce.py:186-213 | The repair loop ends at the first valid reply or with the last invalid one, after that many calls. |
| Contracts.Engine.ApplyRules | src/readyagents/contracts/enforce.py:132-166 | Rules are tried in order up to the first that fires, every one tried is recorded, and its declared action is carried out. |
| Contracts.Engine.FinishOutput | src/readyagents/contracts/enforce.py:265-358 | Each declared action ends as specified; a fallback re-enters once with fallback switched off. |
| Contracts.Engine.TryFallbacks | src/readyagents/contracts/enforce.py:361-379 | The first fallback model whose answer validates wins; without a schema the first answer does. |
| Contracts.RulesNext | src/readyagents/contracts/enforce.py:132-166 | One rule at a time gives the same rows, calls and verdict as all rules at once. |
| ContractLaws.FailsClosed | src/readyagents/contracts/enforce.py:49-166 | Without an approval or a recording, a returned value passed validation and every rule, plain ones by not firing on it and each judged one by the verdict of its own call on that very value, directly, after repair or from a fallback; or the report says it was redacted, and it came out of a redaction the contract wants; everything else raises. |
| ContractLaws.ApprovalOpensOnlyTheGate | src/readyagents/contracts/enforce.py:319-338 | An approval adds one way to return, the node's own gate, and that only when reading it earlier did not use it up; what returns otherwise is as sound as without it. |
| ContractLaws.CallsAreBounded | src/readyagents/contracts/enforce.py:186-262 | At most twice the repair limit, plus one per fallback model, plus two per judged rule model calls are made, and enforcement enters itself again at most once. |
| ContractLaws.EnforceIsClosed | src/readyagents/contracts/enforce.py:49-394 | The inductive form: every way through returns a value that is clean, redacted as the contract wants, or approved, as the report says, and keeps calls and entries within bounds. |
| ContractLaws.FirstValidReplyWins | src/readyagents/contracts/enforce.py:186-213 | The repair loop stops at the first valid reply and gives up only when none of its replies is valid. |
| ContractLaws.GoodOutputPasses | src/readyagents/contracts/enforce.py:82-166 | An output that is no refusal, validates as it is or once repaired, and fires no rule is returned without any model call and reported as passed. |
| ContractPaths.DoorMeans | src/readyagents/contracts/enforce.py:57-77 | What settles an output at the door, and with what: no contract, an approval of a kept output, a rejection, a recording; nothing is asked or stored then. |
| ContractPaths.RefusalMeans | src/readyagents/contracts/enforce.py:85-98 | A refusal is not checked further: the action declared for refusals, failing if none is, is carried out on the output as it is, and what it raises is a refusal error. |
| ContractPaths.ValidMeans | src/readyagents/contracts/enforce.py:100-131 | An output without a schema, or valid as it is, or valid after the deterministic repair, goes on to the rules as what it validates as, without any call. |
| ContractPaths.InvalidMeans | src/readyagents/contracts/enforce.py:115-129 | An output invalid both ways and not to be repaired by the model: the action declared is carried out on it without any call. |
| ContractPaths.RepairGoesOn | src/readyagents/contracts/enforce.py:112-113 | An output invalid both ways, under repair with messages and a model, goes on to the rules with the first valid reply within the limit, and no call was made behind that reply. |
| ContractPaths.RepairGivesUp | src/readyagents/contracts/enforce.py:186-213 | When no reply within the limit is valid it is exhausted after exactly that many calls: the action declared for exhaustion is carried out on the last reply. |
| ContractPaths.NobodyToAsk | src/readyagents/contracts/enforce.py:195-197 | Without messages or without a model it is exhausted at once, with no call. |
| ContractPaths.ExhaustedIff | src/readyagents/contracts/enforce.py:186-213 | Where exhaustion is to fail and no rule falls back, enforcement raises exhaustion, after exactly as many calls as the limit, if and only if none of those replies is valid. |
| ContractPaths.RulesDecideValue | src/readyagents/contracts/enforce.py:132-166 | Either every rule passes in a call of its own and the value is returned with all of them on record, or the first rule that fires has its action carried out, the rules behind it unasked. |
| ContractPaths.ActionsAreCarriedOut | src/readyagents/contracts/enforce.py:265-358 | What each declared action does: raise, redact and return, ask the gate, or enter enforcement once more with the first usable fallback answer; with the calls made, what is stored, and what becomes of the decision. |
| ContractPaths.RecoveryMeans | src/readyagents/contracts/enforce.py:361-379 | The fallback answer taken is the first that validates, or without a schema the first; there is none exactly when none does or nobody can be asked, after all the calls. |
| Repairs.StripTrailingCommas | src/readyagents/contracts/repair.py:24-31 | The loop with its early exit is the eightfold substitution. |
| Repairs.Substitute | src/readyagents/contracts/repair.py:9 | The left-to-right scan drops exactly the commas that optional white space and a closing bracket follow. |
| Repairs.PassIsMade | src/readyagents/contracts/repair.py:9 | The result is, character by character, the text without the commas that trail in it. |
| Repairs.ClosesNextMeans | src/readyagents/contracts/repair.py:9 | A comma trails exactly when only white space stands between it and a closing brace or bracket. |
| Repairs.PassShortens | src/readyagents/contracts/repair.py:24-31 | One substitution takes exactly one comma off the longest run. |
| Repairs.TrailingIsARun | src/readyagents/contracts/repair.py:24-31 | A trailing comma is left exactly when some run is not empty, and a substitution changes the text exactly then. |
| Repairs.OnlyCommasGo | src/readyagents/contracts/repair.py:24-31 | Whatever the text, the result is the text with some commas left out and nothing else changed. |
| Repairs.LiteralsSurviveIff | src/readyagents/contracts/repair.py:24-31 | The contents of all string literals of a text are unchanged if and only if no comma inside a literal is followed by nothing but commas and white space up to a closing bracket. |
| Repairs.LiteralCanChange | src/readyagents/contracts/repair.py:24-31 | The text `{"a":",]",}` becomes `{"a":"]"}`: the literal loses its comma. |
| Repairs.CleanIffShortRuns | src/readyagents/contracts/repair.py:24-31 | The result has no trailing comma if and only if no run has more than eight commas; exactly then repairing again changes nothing and every such run is gone. |
| Repairs.NineCommasLeaveOne | src/readyagents/contracts/repair.py:26 | Nine commas before a bracket leave a trailing comma. |
| Ledgers.ReadLatest | src/readyagents/cost/ledger.py:302-321 | The loop keeps the last row of every run in place, gives rows without a run a key of their own, and counts the unreadable lines. |
| Ledgers.ConservedIff | src/readyagents/cost/ledger.py:302-321 | Every measure summed over the dictionary is its sum over the last entry of every run and every entry without one if and only if no run, anywhere in the ledger, is called like the key an entry without a run is due, made from the number of such entries and of different runs before it. |
| Ledgers.PlainNamesNeverClash | src/readyagents/cost/ledger.py:317-321 | A ledger in which no run has a name of the form `anon-N` meets that condition. |
| Ledgers.NamesCanCollide | src/readyagents/cost/ledger.py:317-321 | A run named `anon-0` replaces the entry without a run id. |
| Ledgers.QuerySpend | src/readyagents/cost/ledger.py:289-331 | The rows come in ascending order of their keys and hold, key by key, exactly the specified buckets; the number of unreadable lines is counted. |
| Ledgers.InKeyOrderMeans | src/readyagents/cost/ledger.py:330 | Sorting by key puts the rows in strictly ascending order and keeps every row, figure and mark. |
| Ledgers.BelowMeans | src/readyagents/cost/ledger.py:330 | The order of keys is that of the first differing code point, a text before its extensions. |
| Ledgers.SpendIsConserved | src/readyagents/cost/ledger.py:322-331 | Every bucket holds exactly the last entries that name it on or after `since`, once per naming; the total is weighted by how many buckets each entry names; no bucket comes twice. |
| Ledgers.TotalsAgree | src/readyagents/cost/ledger.py:289-352 | Totals by day, by workflow and by actor are all the sum over the last entry of every run on or after `since`. |
| Ledgers.MarkedIffUnpriced | src/readyagents/cost/ledger.py:355-364 | A bucket is marked unpriced exactly when some last entry that goes to it is. |
| Ledgers.TotalRow | src/readyagents/cost/ledger.py:267-286 | The report's total is the sum of its rows in every figure, unpriced exactly when some row is. |
| SpendReports.RowShows | src/readyagents/cost/ledger.py:289-364 | Under every key the report shows, counter by counter, the sum over the last entry of every run that `since` lets through, by the entry's own fields: by day those whose time starts with the key, by workflow and actor those of that name or of none, by model and label as often as the entry lists the key. |
| SpendReports.RowMarked | src/readyagents/cost/ledger.py:355-364 | A row is marked unpriced exactly when one of those entries is. |
| SpendReports.RowIsThere | src/readyagents/cost/ledger.py:322-331 | There is a row for exactly the keys that one of those entries belongs under. |
| SpendReports.TotalIsSum | src/readyagents/cost/ledger.py:267-286 | What is called the total is the sum of what the rows show, counter by counter. |
| MemberSpend.MemberSpendFromState | src/readyagents/cost/ledger.py:166-211 | The nested loops over teams and members produce the two specified tables. |
| MemberSpend.RolesConserve | src/readyagents/cost/ledger.py:193-210 | Per role and in all, the table of roles holds exactly what the members used. |
| MemberSpend.KeysAreTaken | src/readyagents/cost/ledger.py:191-192 | The table has an entry under a name after some rows exactly when one of those rows took the name. |
| MemberSpend.MembersConserveIff | src/readyagents/cost/ledger.py:191-192 | The table of members agrees with the rows in every measure, and has an entry for every row, if and only if no row finds both its names taken, a name being taken by an earlier row of that id, or by one qualified to it because its id was taken already. |
| MemberSpend.PlainMembersNeverOverwrite | src/readyagents/cost/ledger.py:191-192 | Member ids without a colon never overwrite each other. |
| MemberSpend.MembersAndRolesAgree | src/readyagents/cost/ledger.py:150-211 | With no colon in a member id, both tables have the same totals, those of all members of all teams. |
| MemberSpend.ColonsCanCollide | src/readyagents/cost/ledger.py:191-192 | Three members of three teams of whom one, with a colon in its id, is overwritten. |
| MemberReports.RowsAreMembers | src/readyagents/cost/ledger.py:176-191 | The rows counted are those of the readable members of the readable teams, none missing and none made up. |
| MemberReports.RoleEntry | src/readyagents/cost/ledger.py:193-210 | The entry of a role has, quantity by quantity, what all members used that act in it, a member without a role in one of its own name. |
| MemberReports.MemberEntry | src/readyagents/cost/ledger.py:182-192 | With plain ids every row has its entry, under the member's name, or with the team's in front if an earlier row is of that member, with its own figures, role and team. |

## Left out

- SHA-256, HMAC, base64 and secret comparison: the digest is an arbitrary function, assumed injective only where a
  lemma says so; a token is its payload and whether its signature holds.
- JSON text: rows are values, so payloads whose unescaped line separators would split a line when read back, and chain
  fields that have other JSON types than expected, are not modelled.
- File systems: partial writes, flushing, permissions, run ids with a dot that share a file name, symbolic links. A write
  is one step.
- `verify_audit_dir` and the command line, server, HTTP clients and notifications: plumbing over what is modelled.
- AuditProtocol.StepKeepsInv: covers one run's file; threads writing other files use other locks and share only the
  registry of their process. Files stay intact when processes are never inside together; otherwise only the exact
  condition on each write is given.
- WholeRunEvidence.HeadVouchesForRun: a rotation cut short by an error starts a fresh chain, so the newest digest vouches
  for nothing before it; runs with such an error are excluded there, and only there.
- Delegations.Load: a store that is missing, unreadable or malformed, and rows with missing fields, are not modelled.
- Calendar parsing and printing: times are whole microseconds, seconds or reals, and reading a timestamp is a given
  function.
- Case folding: an arbitrary function on trimmed names. `Texts.Lower` covers ASCII letters.
- RateLimits.NeverTooMany: floating-point rounding of `now - window` is not modelled, times are reals.
- GateRuns.Gate.TouchGate: who may vote, role checks, signatures and required reasons are decided before the vote
  reaches the gate and are not modelled, nor is the filling in of fields missing from the record; a touch carries the
  vote that passed.
- PauseRecords.PauseFrom: loads with no node to fall back on; numbers written as text, and an object where a list of
  names is expected, read as an error.
- IncludeCopies.CopyIncludeTree: parsing documents and resolving paths are data; the destination is apart from the
  shipped files, and the bytes of a file do not change during the copy.
- Contracts.Engine.EnforceContract: schema validation, rule evaluation, redaction and models are given functions; error
  texts, scores, the list of repairs, feedback signals and the recording of outputs are not modelled.
- Contracts.Engine.FinishOutput: the rejected text and the reason in the report are not modelled.
- Repairs.StripTrailingCommas: the other deterministic repairs (code fences, wrapping a value in an object) are part of the
  given function in `Contracts`.
- Ledgers.QuerySpend: buckets are values, not objects changed in place; the text form of `since`, the number of files
  and figures that are not integers are not modelled.
- MemberSpend.MemberSpendFromState: figures that the meter has already recorded are passed through by the program
  unchanged and are not modelled.
