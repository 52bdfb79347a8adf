# Verified model of the agent factory

This project models the parts of the factory that decide whether work is lost, repeated or
reported wrongly, and proves what they promise. Each module stands for one component.

| file | component |
|---|---|
| `Utf8.dfy`, `Capture.dfy` | the output of an agent process: incremental UTF-8 decoding and the bounded head and tail window |
| `Glob.dfy`, `Ignore.dfy` | ignore files: the glob compiler, rule ordering, the decision for a path |
| `Delivery.dfy` | delivering a run to GitHub: the durable record, the workers, restarts and reconciliation |
| `Index.dfy` | the incremental repository index |
| `Dag.dfy`, `Planner.dfy` | accepting, normalizing and numbering a plan; the dependency check |
| `Reachability.dfy`, `Workflow.dfy`, `Agreement.dfy` | task states, their propagation, and when it ends in agreement |
| `Scheduler.dfy`, `Rework.dfy` | attempts, reviews, rework, retries and restarts; which tasks a rework leaves behind |
| `Search.dfy` | the bounded content search |
| `Config.dfy` | the migration of legacy role tables |
| `Layout.dfy` | the dashboard's layered task graph |
| `Capacity.dfy`, `Integration.dfy` | in-flight work per agent; the run branch |
| `Wrappers.dfy`, `Strings.dfy`, `Sorting.dfy` | shared types, trimming, ordering and sorting |

How the outside world appears:

- Agents, Git and the database answer nondeterministically. `:= *` and `if *` in `Workflow.dfy`
  and `Scheduler.dfy` stand for any answer. Every such early return is a write that fails, those
  inside a propagation, a rework and a restart included, and also a place where the process may
  die: the state at that point is kept, and a restart continues from it. Two constants restrict
  the outside where a contract says so: `reliable`, when every write is made, and `agreeable`,
  when every agent succeeds, every reviewer approves and nobody cancels. In `Integration.dfy` the
  write that fails is a parameter.
- The delivery record changes only by the guarded statements of `crates/factory-db/src/lib.rs`;
  each is one atomic step, as is each call to GitHub. A lost thread or process may leave either
  effect of the call it was in.
- A directory is listed in any order. In the search the order is an arbitrary function; in the
  index it is the order in which the snapshot gives the entries.
- Rust strings that come from a byte stream are their UTF-8 bytes. All other text is a sequence
  of characters.

The reference definitions are independent of the code they judge: the encoder of RFC 3629
(section 4) and the maximal-subpart rule of the Unicode Standard (section 3.9) for decoding, a
matcher that reads a glob component by component for the emitted regular expression, cycles and
paths for Kahn's counters, reachability for the propagation worklists, a full rebuild for the
refreshed index, a recursive preorder for the search's stack, and longest paths for memoized
levels.

Where the code and its documentation disagree, the model follows the code:

- The decoder's comment allows four pending bytes; three is the most there ever are.
- `**/` is documented to span any directories, but the emitted dot stops at a line feed
  (`Glob.LineFeedHidesAFile`). The documented reading, `PatternAccepts(false, ...)`, is met by
  every glob exactly on the paths without a line feed (`Glob.DocumentedOnOneLineExactly`).
- A nested ignore file is documented to apply only under its directory. The prefix test also
  lets it reach siblings whose names extend the directory's name (`Ignore.RuleLeaksIntoSibling`).
  A path is answered as documented exactly if a builtin name decides it or neither it nor a
  directory on the way extends such a name (`Ignore.PathsAnsweredInScope`).
- Nothing below an ignored directory is documented to come back. A backslash in a name is read as
  a slash, and a directory whose text thereby gets an empty component is never looked up again
  (`Ignore.BackslashNameHidesNothing`). `Ignore.IgnoredDirectoryHidesEverythingBelow` gives the
  exact condition.
- `validate_plan` reports a repeated dependency as a cycle, although `normalize_plan` would drop
  the repetition. Acceptance therefore demands that no dependency is named twice.
- A specialized review records a decision derived from its findings, which may differ from the
  verdict that was acted on. Only the attempt's status is relied on for review tasks.
- The propagation after a state change visits each dependent once. It need not end in agreement
  with `next_state_for_dependent` (`Workflow.ReopeningMayLeaveATaskBlocked`). From agreement it
  ends in agreement exactly if it does not reopen a failed or blocked task, or visits each task
  it frees after what that task depends on (`Agreement.MarkingKeepsAgreementExactly`); the
  visiting order is a function of the tasks, their states and the marked task.
- The recorded integration head is meant to be the head of the run branch. When the write after
  the branch moved fails, a second try finds nothing to integrate and leaves the record stale
  (`Integration.RetryLeavesTheRecordStale`). After any sequence the record is exact exactly if the
  last work to move the branch was recorded, or nothing different was, or no work moves it and it
  was exact before (`Integration.RecordFollowsExactly`).
- The tasks that a rework sets back are documented to be done again with the reworked
  implementation (`crates/factory-core/src/factory.rs:2537-2540`). They are exactly if each of them
  rests on it (`Rework.UnwoundAreRedecidedExactly`). One that does not, and that no other review
  can hand work back to, stays Pending through every execution, restart and retry, and the run
  never completes (`Rework.AdvisedRunNeverCompletes`).
- At most one reconciliation of a run may be under way, a rule the runtime enforces. Without it
  the unguarded write can reopen a live record (`Delivery.TwoReconciliationsReopenALiveRecord`).

## Model

| member | source | states |
|---|---|---|
| Utf8.ScanMeaning | crates/factory-agent/src/capture.rs:157-176 | one validation step is complete exactly when an encoded character comes first, undecided exactly when the input is a proper prefix of one, and otherwise skips the maximal subpart |
| Utf8.WellFormedIffValid | crates/factory-agent/src/capture.rs:157-161 | validation consumes the whole input exactly when it is the encoding of some characters |
| Utf8.FromUtf8 | crates/factory-agent/src/capture.rs:157-175 | succeeds exactly on well-formed input; otherwise reports the longest valid prefix and the length of what is wrong, none if only the end is missing |
| Utf8.DecodedConcat | crates/factory-agent/src/capture.rs:129-140 | decoding two pieces one after the other, what the first leaves over put before the second, is decoding them joined |
| Utf8.LossyOfWellFormed | crates/factory-agent/src/capture.rs:144-151 | well-formed input decodes to itself, with no U+FFFD and nothing waiting |
| Utf8.LossyIsWellFormed | crates/factory-agent/src/capture.rs:108-109 | lossy text is always well formed |
| Utf8.LossyByFragments | crates/factory-agent/src/capture.rs:117-152 | every byte sequence splits into whole characters, maximal ill-formed subparts and at most one character cut short, said by the encoder alone; its lossy text has one U+FFFD for each that is no character, what is decided at once is the text of those not cut short, and what waits is the one that is |
| Utf8.SplitsOneWay | crates/factory-agent/src/capture.rs:117-152 | the splitting exists and is unique |
| Utf8.CutAtBoundary | crates/factory-agent/src/capture.rs:208-212 | well-formed text cut at a character boundary leaves two well-formed texts |
| Capture.DecodeUtf8 | crates/factory-agent/src/capture.rs:154-179 | returns all the text that no later byte can change, and exactly the undecided bytes |
| Capture.Utf8StreamDecoder.Push | crates/factory-agent/src/capture.rs:129-140 | whatever the cuts so far, the text emitted is what the whole stream decides, and at most three bytes wait |
| Capture.Utf8StreamDecoder.Finish | crates/factory-agent/src/capture.rs:144-151 | the emitted text completed by this call is the one-shot lossy decoding of the stream; the call adds exactly one U+FFFD if bytes were waiting and nothing otherwise; a well-formed stream comes back unchanged |
| Capture.AnyCutDecodesAlike | crates/factory-agent/src/capture.rs:117-152 | for every stream and every way of cutting it, empty chunks included, the decoded text is the lossy decoding of the whole, fragment by fragment, with at most three bytes pending |
| Capture.BoundedOutputCapture.constructor | crates/factory-agent/src/capture.rs:31-42 | a limit of zero counts as one; the head may hold a quarter of the limit, the tail the rest |
| Capture.BoundedOutputCapture.Push | crates/factory-agent/src/capture.rs:44-71 | after any chunks the head is the stream's prefix, the tail the last bytes of the rest and the total its length |
| Capture.BoundedOutputCapture.Finish | crates/factory-agent/src/capture.rs:77-114 | the record depends only on the stream, not on its chunks |
| Capture.TrimIncompleteUtf8Tail | crates/factory-agent/src/capture.rs:194-202 | removes the fewest bytes, at most three, that leave well-formed text, and nothing if no such cut exists |
| Capture.FitToLimit | crates/factory-agent/src/capture.rs:204-214 | keeps the text from the first character boundary at which the rest fits, and says whether it cut; said without the search itself |
| Capture.FittedIsBounded | crates/factory-agent/src/capture.rs:204-214 | the fitted text is well formed and within the limit |
| Capture.CapturedWithinLimit | crates/factory-agent/src/capture.rs:77-114 | for any bytes the text is well formed and within the limit, and kept plus dropped bytes are the bytes received |
| Capture.TrimmedHeadOfWellFormed | crates/factory-agent/src/capture.rs:194-202 | any prefix of well-formed text is trimmed to well-formed text by at most three bytes |
| Capture.TailOfWellFormed | crates/factory-agent/src/capture.rs:83-88 | dropping the leading continuation bytes, at most three, makes any suffix of well-formed text well formed |
| Capture.KeptPiecesOfWellFormed | crates/factory-agent/src/capture.rs:81-88 | of a well-formed stream the kept pieces are a prefix and a suffix, both well formed and each at most three bytes short of its share |
| Capture.CapturedTextOfWellFormedStream | crates/factory-agent/src/capture.rs:77-114 | a well-formed stream within the limit is kept whole; a longer one becomes a prefix joined to a suffix, at most six bytes short of the limit, no U+FFFD added, the dropped bytes exactly those missing |
| Glob.CompilePattern | crates/factory-context/src/ignore.rs:163-216 | the character loop emits exactly the pieces of the translation |
| Glob.TranslationAcceptsAlike | crates/factory-context/src/ignore.rs:163-216 | the emitted pieces accept exactly the texts whose components the glob accepts, for every glob and every text |
| Glob.CompiledGlobAcceptsAlike | crates/factory-context/src/ignore.rs:161-221 | the whole regular expression, anchored or not, accepts exactly what the component-level matcher accepts, for every glob and every text |
| Glob.DocumentedOnOneLineExactly | crates/factory-context/src/ignore.rs:163-221 | all emitted expressions agree with the documented reading of their globs on a path text exactly when it holds no line feed |
| Glob.EverythingStopsAtALine | crates/factory-context/src/ignore.rs:181-201 | on any text with a line feed the glob `**` disagrees with its documented reading |
| Glob.LineFeedHidesAFile | crates/factory-context/src/ignore.rs:181-195 | the anchored glob `**/x` does not match the file `x` in a directory whose name holds a line feed, although it is documented to |
| Glob.NameGlobMatchesFinalComponent | crates/factory-context/src/ignore.rs:157-221 | a slash-free glob without `**` accepts a path exactly when it matches the final component |
| Ignore.ParseLineMarks | crates/factory-context/src/ignore.rs:135-161 | what white space, `!`, a final slash, `#`, and a backslash before `#` or `!` each mean, and which lines are anchored |
| Ignore.MarksAlone | crates/factory-context/src/ignore.rs:135-155 | a mark alone on its line holds no pattern, unless a backslash precedes it |
| Ignore.IgnoreRules.AddScoped | crates/factory-context/src/ignore.rs:134-233 | the rule list becomes the old one followed by the file's rules in line order, stably sorted by precedence |
| Ignore.AddingLineByLine | crates/factory-context/src/ignore.rs:134-233 | adding a text with more lines after it adds what the text alone and then the lines alone add, for all texts |
| Ignore.AddingOneLine | crates/factory-context/src/ignore.rs:134-233 | a single line adds exactly one rule, last within its precedence and with the marks and glob the line says, or none if it holds no pattern |
| Ignore.StableSortIsStable | crates/factory-context/src/ignore.rs:232-232 | the list is ordered by precedence and keeps the order within each precedence |
| Ignore.AddingOrderOnlyMattersWithinPrecedence | crates/factory-context/src/ignore.rs:134-233 | two ways of adding files that agree within each precedence compile to the same list |
| Ignore.DistinctFilesCommute | crates/factory-context/src/ignore.rs:134-233 | files of pairwise distinct precedence may be added in any order |
| Ignore.IgnoreRules.MatchWithRules | crates/factory-context/src/ignore.rs:333-356 | ignores exactly when the last rule that applies exists and is no negation |
| Ignore.LastRuleDecides | crates/factory-context/src/ignore.rs:333-356 | if the last rule applies its sign is the decision, otherwise the rules before it decide |
| Ignore.IgnoreRules.IsIgnored | crates/factory-context/src/ignore.rs:286-327 | ignores exactly when a builtin name does, some ancestor directory is decided ignored, or the path itself is |
| Ignore.BuiltinNamesDecide | crates/factory-context/src/ignore.rs:286-305 | builtin directory names anywhere on the path and builtin names of files decide whatever the rules say, and alone where there are none |
| Ignore.BuiltinFileNames | crates/factory-context/src/ignore.rs:83-92 | a builtin file name is one of two, or any text before one of the suffixes |
| Ignore.NestedRuleSparesItsDirectory | crates/factory-context/src/ignore.rs:339-352 | a rule of a nested file never speaks about the directory of the file itself |
| Ignore.IgnoredDirectoryHidesEverythingBelow | crates/factory-context/src/ignore.rs:306-326 | for every directory and path below it, names with backslashes included: whatever the ignore files say, an ignored directory has the path ignored exactly if a builtin name does, or the text of the directory has no empty component and something is named below it |
| Ignore.BackslashNameHidesNothing | crates/factory-context/src/ignore.rs:306-326 | the line `a/*` ignores a directory named `a` and a backslash, and not the file `x` in it |
| Ignore.StrongestPrecedenceDecides | crates/factory-context/src/ignore.rs:329-356 | when a rule of the strongest precedence applies, the rules of that precedence alone decide |
| Ignore.ScopeOfNestedRule | crates/factory-context/src/ignore.rs:339-347 | a nested rule sees the rest of a path in its directory; some file of the directory decides a path outside it exactly when the path extends the directory's name by other than a slash |
| Ignore.OnlyScopeDecides | crates/factory-context/src/ignore.rs:339-347 | where no rule's directory name is extended, the rules whose directory holds the text decide alone |
| Ignore.ScopeOfNestedRules | crates/factory-context/src/ignore.rs:339-347 | all ignore files in given directories decide a text by the rules in scope alone exactly when the text extends none of the directories' names |
| Ignore.PathsAnsweredInScope | crates/factory-context/src/ignore.rs:286-347 | the answer for a path, with any names and ancestors included, is the documented one for all ignore files in given directories exactly when a builtin name decides it or neither its text nor that of a directory on the way extends one of their names |
| Ignore.ExtensionOfCleanPath | crates/factory-context/src/ignore.rs:339-347 | without backslashes in the names, only the path's own text need be looked at |
| Ignore.ShapeDecides | crates/factory-context/src/ignore.rs:339-347 | two lines for each shape of text ignore exactly the texts of that shape in their directory |
| Ignore.RuleLeaksIntoSibling | crates/factory-context/src/ignore.rs:339-347 | the line `/b` in the ignore file of directory `a` makes the program ignore the file `ab` beside it, which the rules in scope do not |
| Delivery.DeliveryService.SetDeliveryIfOperation | crates/factory-db/src/lib.rs:1588-1613 | writes only while the operation owns an active record, says whether it did, and never gives or takes another operation's ownership |
| Delivery.StaleWorkerWritesNothing | crates/factory-core/src/factory.rs:3665-3728 | no sequence of steps of a worker whose operation does not own the record changes it, in any world, reachable or not |
| Delivery.StaleStepWritesNothing | crates/factory-core/src/factory.rs:3665-3728 | the same for each single step of a worker |
| Delivery.PanicIsRecorded | crates/factory-core/src/factory.rs:3439-3455 | a worker whose thread panics leaves its record interrupted with recovery required, whatever it was doing |
| Delivery.RunsOnlyAdd | crates/factory-core/src/factory.rs:3555-3850 | no run takes back a push, and no claim uses an operation a second time |
| Delivery.WritesKeepOwnership | crates/factory-db/src/lib.rs:1585-1613 | no step of a worker changes the recorded operation or what any other operation owns |
| Delivery.StepKeepsInv | crates/factory-core/src/factory.rs:3560-3850 | every claim, worker step, lost thread, restart and reconciliation step keeps what record, workers and GitHub know of each other |
| Delivery.EveryRunIsSafe | crates/factory-core/src/factory.rs:3555-3850 | under every interleaving: when the record permits a claim no worker is live and no pull request exists; Published names the one that exists; there is never a second one, nor a second live worker |
| Delivery.RestartLeavesNothingActive | crates/factory-db/src/lib.rs:1660-1684 | after any run that ends in a restart no delivery is active: one that was is interrupted with recovery required and keeps its operation and push, any other record is unchanged, and the run can be claimed, is published, or can be reconciled at once |
| Delivery.EveryDeliveryCanStillBePublished | crates/factory-core/src/factory.rs:3555-3850 | from every reachable world, whatever has been lost in it, some continuation publishes the run |
| Delivery.PublishedIsAbsorbing | crates/factory-core/src/factory.rs:3571-3575 | once Published, no continuation changes the record or its pull request |
| Delivery.PullRequestIsNeverDuplicated | crates/factory-github/src/delivery.rs:118-141 | a pull request, once it exists, stays the only one in every continuation |
| Delivery.TwoReconciliationsReopenALiveRecord | crates/factory-runtime/src/lib.rs:446-485 | without the single-flight rule a claimable record with a live worker is reachable |
| Delivery.DeliveryService.ClaimDeliveryRow | crates/factory-db/src/lib.rs:1620-1645 | the claim succeeds exactly on an idle record without a pull request; it takes the record from no owner and leaves the claimer its only one |
| Delivery.DeliveryService.MarkDeliveryFailedIfIdle | crates/factory-db/src/lib.rs:1650-1658 | fails exactly an idle record without a pull request; no ownership, pull request or chance of a claim changes |
| Delivery.DeliveryService.BeginDelivery | crates/factory-core/src/factory.rs:3560-3656 | an undisturbed request is a run of the protocol; it claims exactly when the run is eligible, the base branch exists and the record is idle, and each refusal holds |
| Delivery.DeliveryService.FinishFailedDelivery | crates/factory-core/src/factory.rs:3825-3850 | a definitive failure becomes Failed and an uncertain one Interrupted, only under the owning operation |
| Delivery.DeliveryService.MarkDeliveryInterrupted | crates/factory-core/src/factory.rs:3439-3455 | an owned active record becomes Interrupted with recovery required; any other stays |
| Delivery.DeliveryService.ExecuteDelivery | crates/factory-core/src/factory.rs:3665-3728 | an undisturbed execution is a run of the protocol that ends with the worker gone; it publishes exactly when it owns the record and both calls succeed, with the head it was given; a call that fails definitively leaves the record Failed, one whose outcome is unknown leaves it Interrupted with recovery required; without ownership nothing is written |
| Delivery.DeliveryService.CreateAndPublish | crates/factory-core/src/factory.rs:3696-3728 | from a pushed branch, creating or linking the pull request publishes it exactly when the call succeeds |
| Delivery.DeliveryService.ReconcileDelivery | crates/factory-core/src/factory.rs:3735-3813 | an undisturbed reconciliation is a run of the protocol: one pull request is published, with the head if the push is confirmed, none makes the record Failed, anything else changes nothing |
| Delivery.DeliveryEligibility | crates/factory-core/src/github.rs:36-73 | ready exactly when completed with an integration head that is the local head, and each blocker exactly when its reason holds |
| Delivery.ReportIsTruthful | crates/factory-core/src/factory.rs:3403-3412 | in every reachable world a retry is called safe exactly when eligible and claimable, and the shown state is active, failed or uncertain exactly when the record is |
| Index.ContextIndex.Refresh | crates/factory-context/src/index.rs:128-268 | the stack-driven walk leaves the files and counts of the refresh function, and so the index of the tree |
| Index.RefreshedIsIndexOfTree | crates/factory-context/src/index.rs:128-268 | over a tree of named entries every entry belongs to a file of accepted, readable directories and has the hash and symbols of its content exactly if the file has a language, at most 1,048,576 bytes and a stable read; there are at most 50,000 entries, and every file has one unless the limit is met and reported |
| Index.WalkMeetsTheTree | crates/factory-context/src/index.rs:133-180 | the walk meets only files that lie in the tree, and all of them unless 50,000 have been met |
| Index.ContextIndex.IndexFile | crates/factory-context/src/index.rs:182-251 | a cached entry stands only if size, time and, where symbols are kept, the fingerprint agree; otherwise it is replaced by what a rebuild would make |
| Index.ContextIndex.RemoveUnseen | crates/factory-context/src/index.rs:256-265 | drops exactly the entries not met and counts them |
| Index.FreshIsExpected | crates/factory-context/src/index.rs:191-214 | an entry allowed to stand is the one a rebuild would make |
| Index.RefreshIsRebuild | crates/factory-context/src/index.rs:128-268 | refreshing any well-formed index gives the files, oversize flag and total of a rebuild |
| Index.ManyRefreshesAreOneRebuild | crates/factory-context/src/index.rs:128-268 | after any sequence of snapshots the index is a rebuild of the last |
| Index.RefreshCountsAddUp | crates/factory-context/src/index.rs:245-267 | files before plus added minus removed are the files after |
| Index.SecondRefreshOfNamedTree | crates/factory-context/src/index.rs:128-268 | every file has its own key; refreshing again adds and removes nothing and updates exactly the eligible files that cannot be read, so it reports a change if and only if there are some |
| Index.SecondRefresh | crates/factory-context/src/index.rs:216-251 | the same for files of any keys: a change is reported exactly if an eligible file cannot be read or files of one key differ |
| Index.ManifestRoundTrip | crates/factory-context/src/index.rs:88-110 | a well-formed index written to its manifest and read back is the same |
| Dag.AllSchedulable | crates/factory-core/src/planner.rs:313-338 | Kahn's counters never underflow and accept exactly the graphs without a cycle and without a repeated dependency |
| Planner.ValidatePlan | crates/factory-core/src/planner.rs:269-356 | accepts exactly the acceptable plans; each refusal names a reason that holds |
| Planner.AcceptableMeans | crates/factory-core/src/planner.rs:269-356 | a plan is acceptable exactly if it has 1 to 50 tasks, each with an id, title, objective and criteria that are not only white space and none for the planner, distinct ids, and a graph that can be scheduled |
| Planner.CheckFields | crates/factory-core/src/planner.rs:276-299 | passes exactly when all fields are filled and trimmed ids are unique |
| Planner.CheckDependencies | crates/factory-core/src/planner.rs:300-312 | passes exactly when all dependencies are known and none is on the task itself |
| Planner.CheckRoles | crates/factory-core/src/planner.rs:339-354 | passes exactly when no task is for the planner |
| Planner.NormalizePlan | crates/factory-core/src/planner.rs:358-370 | trims, sorts and removes neighbouring repetitions task by task |
| Planner.NormalizedFields | crates/factory-core/src/planner.rs:358-374 | white space around a task's texts goes, its dependencies are the same in strict order, an empty role is none, and everything else stays |
| Planner.NormalizingTwiceIsNormalizing | crates/factory-core/src/planner.rs:358-370 | normalizing a normalized plan changes nothing |
| Planner.NormalizedPlanStaysAcceptable | crates/factory-core/src/planner.rs:358-370 | an accepted plan is still accepted after normalizing |
| Planner.RepeatedDependencyIsRefused | crates/factory-core/src/planner.rs:313-338 | a plan that names a dependency twice is refused although normalizing would mend it |
| Planner.ValidateTaskDag | crates/factory-core/src/factory.rs:3955-3995 | with unique ids accepts exactly the graphs with known dependencies, no self-loop, no repetition and no cycle |
| Planner.RenumberingStaysSchedulable | crates/factory-core/src/factory.rs:3955-3995 | giving the tasks of a schedulable graph distinct numbers keeps it schedulable |
| Planner.AcceptedPlanPassesRunCheck | crates/factory-core/src/factory.rs:3955-3995 | an accepted plan, normalized and numbered, passes the run's own check |
| Workflow.NextStateForDependent | crates/factory-core/src/workflow.rs:76-92 | a dependent becomes Blocked, Ready or Pending, never Completed |
| Workflow.OfferedIsPermitted | crates/factory-core/src/workflow.rs:14-74 | a transition is permitted exactly if the target is offered or the state stays |
| Workflow.TaskBoard.MarkTask | crates/factory-core/src/factory.rs:2972-3025 | a forbidden change alters nothing; otherwise exactly the open tasks reachable through open dependents are decided, once each, in the visiting order of the run, from the states as decided so far, everything else stays, and the reported ids are the changed ones without repetition; a write that fails leaves the decisions made up to then |
| Workflow.PropagationKeepsCompleted | crates/factory-core/src/factory.rs:2999-3001 | no other task becomes Completed or stops being so |
| Agreement.MarkingKeepsAgreementExactly | crates/factory-core/src/factory.rs:2972-3025 | in a run without cycles whose affected tasks agree with their dependencies, a marked change leaves them in agreement exactly if it does not reopen a failed or blocked task, or visits every affected task it frees after the affected tasks that one depends on |
| Agreement.BlockingReachesEveryAffected | crates/factory-core/src/factory.rs:2972-3025 | a task marked failed or blocked leaves every affected task Blocked and in agreement, whatever held before |
| Agreement.BlockingIsKept | crates/factory-core/src/factory.rs:2972-3025 | a change that blocks dependents after exactly if before leaves every affected task as blocking as it was |
| Agreement.FreedOnes | crates/factory-core/src/factory.rs:2972-3025 | when freed tasks are visited in order, exactly the affected tasks resting on a failed or blocked task outside the change end Blocked |
| Agreement.NoBlockedRing | crates/factory-core/src/workflow.rs:76-92 | in agreement after a reopening only tasks resting on one blocked from outside are Blocked, as the graph has no cycle |
| Agreement.OneWayInKeepsAgreement | crates/factory-core/src/factory.rs:2972-3025 | if no affected task depends on two tasks of the change, reopening keeps agreement |
| Agreement.MarkingStaysInStep | crates/factory-core/src/factory.rs:2972-3025 | in a run without cycles a marked change that reopens nothing leaves every other open task in the state its dependencies call for |
| Agreement.NothingReadyIsAllDone | crates/factory-core/src/factory.rs:1478-1493 | in such a run some task is Ready or all are Completed |
| Agreement.FreshRunIsInStep | crates/factory-core/src/workflow.rs:6-12 | a run in which exactly the tasks without dependencies are Ready and the others Pending is in step |
| Workflow.ReopeningMayLeaveATaskBlocked | crates/factory-core/src/factory.rs:2987-3014 | a concrete run in which a task ends Blocked although none of its dependencies is failed or blocked |
| Scheduler.TransitiveAncestors | crates/factory-core/src/factory.rs:4053-4065 | collects exactly the tasks depended on at any distance |
| Scheduler.Deepest | crates/factory-core/src/factory.rs:4028-4050 | the last candidate of the highest position, none exactly when there is no candidate |
| Scheduler.SeedIsDeepest | crates/factory-core/src/factory.rs:4028-4050 | the task to rework is exactly the implementation ancestor of highest position, the last listed among equals, or the verification ancestor likewise if there is no implementation ancestor |
| Scheduler.SeedIsAnotherTask | crates/factory-core/src/factory.rs:4028-4050 | the task to rework is an ancestor in the run and never the review itself |
| Scheduler.FirstReady | crates/factory-core/src/factory.rs:1480-1484 | the Ready task of lowest position, then lowest id; none exactly when none is Ready |
| Scheduler.BudgetDrops | crates/factory-core/src/factory.rs:1594-1609 | another attempt of any task lowers the sum of remaining attempts |
| Scheduler.Run.constructor | crates/factory-db/src/lib.rs:1117-1148 | a new run has no attempts |
| Scheduler.Run.Mark | crates/factory-core/src/factory.rs:2972-3025 | one transition with its propagation, complete or stopped by a failed write, completes and undoes no other task; a change of a task that may move leaves every stalled one stalled |
| Scheduler.Run.StartAttempt | crates/factory-core/src/factory.rs:1642-1658 | appends one running attempt and marks the task Running, or stops on the way with the run still sound |
| Scheduler.Run.Finish | crates/factory-db/src/lib.rs:1241-1270 | closes only the latest attempt and moves only this task; a task completes only with an earned approval |
| Scheduler.Run.Reopen | crates/factory-core/src/factory.rs:1788-1793 | a failed task is Ready again exactly when attempts remain, unless a write fails, which leaves it Failed or Ready |
| Scheduler.Run.FailAttempt | crates/factory-core/src/factory.rs:1970-1983 | a refused attempt is recorded and the task reopened while attempts remain, and never completed |
| Scheduler.Run.CloseAndLeave | crates/factory-core/src/factory.rs:2677-2699 | the attempt ends unapproved and the task Failed before the stop is reported |
| Scheduler.Run.WorkStage | crates/factory-core/src/factory.rs:1678-1815 | goes on exactly when the worker agent succeeded within policy; every other ending closes the attempt unapproved, and each kind of stop has its reason; when every write is made, the ending alone decides |
| Scheduler.Run.OpenReview | crates/factory-core/src/factory.rs:1818-1819 | only the latest attempt changes, to Reviewing |
| Scheduler.Run.IntegrateAndAccept | crates/factory-core/src/factory.rs:1952-1968 | approved work completes the task with an attempt approved by its Reviewer agent, unless the integration or a write fails |
| Scheduler.Run.FinalReview | crates/factory-core/src/factory.rs:1818-1983 | the task completes only if a Reviewer agent that ran cleanly approved; an approval completes it unless a write or the integration fails; every other ending has its reason; when every write is made, the ending and the verdict alone decide |
| Scheduler.Run.ImplementOnce | crates/factory-core/src/factory.rs:1594-1984 | one turn makes at most one more attempt |
| Scheduler.Run.ExecuteImplementation | crates/factory-core/src/factory.rs:1585-1985 | terminates for any agents; succeeds only with the task Completed and its latest attempt approved by its Reviewer agent; gives up only when cancelled or out of attempts; rewrites no earlier attempt and touches no other task's completion or attempts |
| Scheduler.Run.AcceptAdvice | crates/factory-core/src/factory.rs:2153-2176 | what an advisory agent produced completes the task with an approved attempt and no review |
| Scheduler.Run.AdviseOnce | crates/factory-core/src/factory.rs:1998-2222 | one turn makes at most one more attempt |
| Scheduler.Run.ExecuteAdvisory | crates/factory-core/src/factory.rs:1991-2224 | the same for advisory tasks, approved without a review |
| Scheduler.Run.Unwind | crates/factory-core/src/factory.rs:2557-2568 | sets back exactly the Completed tasks given, or only some of them if a write fails |
| Scheduler.ReworkEffect | crates/factory-core/src/factory.rs:2557-2573 | unwinding some or all of the ancestry, blocking the review and reopening the seed, each complete or not, keep the run sound; unwinding all leaves no ancestor but the seed Completed |
| Scheduler.Run.ReworkAfterReview | crates/factory-core/src/factory.rs:2541-2574 | refuses exactly when the deepest implementation ancestor, or else the deepest verification ancestor, has no attempts left or there is none, changing nothing; otherwise no ancestor of the review stays Completed, that task is Ready with attempts left, and nothing outside the ancestry is undone; a write that fails anywhere leaves the run sound with part of the ancestry unwound; every stranded ancestor is stalled once the rework has started |
| Scheduler.MovingKeepsStalled | crates/factory-core/src/factory.rs:2972-3025 | a change that reaches only what rests on a task that may move leaves every stalled task stalled |
| Rework.UnwoundAreRedecidedExactly | crates/factory-core/src/factory.rs:2537-2572 | once a rework has started, a change of the reworked task re-decides all tasks set back exactly if each of them rests on it |
| Rework.StrandedExactly | crates/factory-core/src/factory.rs:2557-2572 | where no other task is handed work back, a task set back with nothing moving above it is stranded exactly if it does not rest on the reworked one |
| Rework.AdviceIsStranded | crates/factory-core/src/factory.rs:2541-2574 | an advisory task, an implementation resting on it and its review: the advice is left behind when the review sends the work back |
| Rework.StalledRunNeverCompletes | crates/factory-core/src/factory.rs:1448-1543 | after any executions, restarts and retries a stalled task is stalled still and the run does not complete |
| Rework.AdvisedRunNeverCompletes | crates/factory-core/src/factory.rs:2541-2574 | once its review has sent the work back, the run with the advisory task never completes, whatever happens to it |
| Rework.ExhaustedRunNeverCompletes | crates/factory-core/src/factory.rs:1505-1543 | a run in which an unfinished task has used up its attempts never completes, through any executions, restarts and retries |
| Rework.NothingStalledIsNotEnough | crates/factory-core/src/factory.rs:1515-1526 | a run without stalled tasks that nothing can complete |
| Scheduler.Run.RequestRework | crates/factory-core/src/factory.rs:2504-2533 | records the request and starts the rework, or fails the review for lack of anything to rework, unless a write fails on the way, which leaves the run sound |
| Scheduler.Run.Judge | crates/factory-core/src/factory.rs:2474-2533 | only an approval completes the review, touching nothing else; a request or an unreadable answer starts a rework or fails for lack of one, unless a write fails; the recorded decision is that of the findings |
| Scheduler.Run.ReviewOnce | crates/factory-core/src/factory.rs:2268-2533 | one turn makes at most one more attempt |
| Scheduler.Run.ExecuteReview | crates/factory-core/src/factory.rs:2231-2535 | terminates; succeeds only with the review approved and Completed, or with a rework started after which nothing it rests on is Completed |
| Scheduler.Run.ExecuteTask | crates/factory-core/src/factory.rs:1548-1579 | success spends an attempt of this task only; no other task becomes Completed; it gives up only when cancelled or out of attempts; a task whose agents succeed and whose writes are made is Completed |
| Scheduler.Run.ExecuteActiveRun | crates/factory-core/src/factory.rs:1465-1503 | terminates for any outcomes, the sum of remaining attempts falling each round, so it executes at most one task more than attempts remain, each the first Ready one, each but the last letting the run go on; Completed means every task is Completed with an earned latest attempt; Failed means that the last execution gave up or that none is Ready; an error is that of the last execution; no attempt is rewritten, no task completed without a new one, and only executed tasks gain attempts; a run with a stalled task does not complete |
| Scheduler.CompletingGoesOn | crates/factory-core/src/factory.rs:1465-1503 | completing a task of a run that can go on leaves it able to go on |
| Rework.SmoothRunCompletes | crates/factory-core/src/factory.rs:1465-1503 | a fresh run of an acyclic plan without planner tasks completes if every write is made, every agent succeeds, every reviewer approves and nobody cancels |
| Scheduler.Run.PrepareRetry | crates/factory-core/src/factory.rs:1505-1543 | readies exactly a failed or blocked task with attempts left; each refusal exactly when its reason holds, changing nothing; a failed write leaves the task as it was or Ready |
| Scheduler.Run.ReconcileInterrupted | crates/factory-db/src/lib.rs:1833-1884 | exactly the attempts that were running or reviewing become interrupted, exactly the running tasks fail and the integrating ones wait again, and the run stays sound, also if it stops between two of its statements |
| Scheduler.Run.Undergo | crates/factory-core/src/factory.rs:1448-1543 | one execution, restart or retry keeps the run sound and completes nothing for free |
| Scheduler.Run.LiveThrough | crates/factory-core/src/factory.rs:1448-1543 | in every state reached by executions, restarts and retries, stopped at any write of an attempt, a propagation, a rework or a restart, a Completed task's latest attempt is approved, by a Reviewer agent where the operation needs one, and no task has more than three; a stalled task stays stalled |
| Search.RetainSmallest | crates/factory-context/src/search.rs:329-337 | the set stays the smallest distinct keys offered so far |
| Search.SmallestIsUnique | crates/factory-context/src/search.rs:329-337 | there is one such set, so the order of offering does not matter |
| Search.KeepAccepted | crates/factory-context/src/search.rs:292-303 | of any list of candidates the smallest accepted keys remain |
| Search.CompleteDirectory | crates/factory-context/src/search.rs:407-420 | a directory is taken exactly when no entry fails and the budget exceeds its entries, one unit each |
| Search.SortedDelivery | crates/factory-context/src/search.rs:364-371 | sorting by name restores one listing from every order of delivery |
| Search.Descend | crates/factory-context/src/search.rs:356-403 | replacing the top of the stack by its subdirectories takes one place off the preorder |
| Search.FullyListedIsMaximal | crates/factory-context/src/search.rs:364-366 | the directories reached are the longest faultless run whose entries stay below the budget |
| Search.ScanDirectory | crates/factory-context/src/search.rs:372-402 | offers exactly the matching files and collects exactly the directories, by name |
| Search.FallbackPaths | crates/factory-context/src/search.rs:348-405 | for every order in which each directory is delivered: the smallest matching keys among the directories fully listed within the budget |
| Config.Config.Normalize | crates/factory-core/src/config.rs:281-342 | keeps exactly the explicit and the non-empty legacy pairs, sorted and without repetition, first choices and at most one preferred per role preserved; a normalized configuration is left alone and reported unchanged; the context bounds are clamped without being reported; exactly the tables that define something stay, without their legacy agents |
| Config.Config.MigrateLegacy | crates/factory-core/src/config.rs:282-319 | appends one entry for each legacy pair not explicit, preferred only where its role had no preferred entry |
| Config.Config.DropEmptyRoles | crates/factory-core/src/config.rs:320-329 | removes exactly the tables that define nothing |
| Config.Config.Deduplicate | crates/factory-core/src/config.rs:330-338 | keeps the first entry of each pair, in order, and notices whether any was dropped |
| Config.AtMostOnePreferredIsKept | crates/factory-core/src/config.rs:305-313 | one preferred entry per role at most stays so |
| Layout.Levels.AssignLevel | apps/dashboard/src/layout.ts:31-42 | on an acyclic list the memoized recursion ends and returns the longest path's length |
| Layout.DepthIsUnique | apps/dashboard/src/layout.ts:31-42 | an id has one depth, so a remembered level and a recomputed one agree |
| Layout.DepthFromDependencies | apps/dashboard/src/layout.ts:34-41 | one more than the deepest dependency is the length of the longest path |
| Layout.EdgeDescends | apps/dashboard/src/layout.ts:34-41 | a task is strictly deeper than what it depends on |
| Layout.BucketsByLevel | apps/dashboard/src/layout.ts:48-54 | each bucket holds the ids of its level in list order |
| Layout.PlaceColumns | apps/dashboard/src/layout.ts:56-66 | the nodes are the columns, bucket by bucket |
| Layout.CollectEdges | apps/dashboard/src/layout.ts:68-73 | one edge per named dependency, in order |
| Layout.Extent | apps/dashboard/src/layout.ts:75-79 | the reported size covers every column and is that of the last and of the fullest one |
| Layout.FitsTightly | apps/dashboard/src/layout.ts:75-79 | the reported size is no larger than the nodes need |
| Layout.ComputeLayout | apps/dashboard/src/layout.ts:27-82 | every task stands once in the column of its depth, no rectangles overlap, all lie in the reported size, which none could shrink, and edges run to columns further right; within a column the tasks stand in list order from the top down |
| Capacity.AgentCapacity.TryAcquire | crates/factory-core/src/capacity.rs:39-53 | reserves exactly when fewer guards than the limit are live |
| Capacity.AgentCapacity.Acquire | crates/factory-core/src/capacity.rs:23-30 | takes a slot whatever the limit |
| Capacity.AgentCapacity.Release | crates/factory-core/src/capacity.rs:56-77 | a load falls by one and never below zero |
| Capacity.AgentCapacity.DropGuard | crates/factory-core/src/capacity.rs:88-94 | dropping a live guard frees exactly its slot |
| Capacity.AgentCapacity.Interleave | crates/factory-core/src/capacity.rs:39-94 | under any order of reservations and drops an agent's load is its live guards and stays within the limit |
| Capacity.AgentCapacity.SelectAgent | crates/factory-core/src/capacity.rs:101-121 | a least loaded member, the index-th of them counted around |
| Capacity.TurnsGoAround | crates/factory-core/src/capacity.rs:118-121 | as many turns as there are least loaded members take each of them once, in order, and then begin again |
| Capacity.AgentCapacity.SelectAgentForTask | crates/factory-core/src/factory.rs:785-811 | a member exactly when one is eligible: the selected one if it is, else the first eligible counted around |
| Capacity.AgentCapacity.Dispatch | crates/factory-core/src/capacity.rs:101-121 | selecting and acquiring takes one slot in the pool and keeps its loads within one of each other |
| Capacity.AgentCapacity.DispatchAll | crates/factory-core/src/capacity.rs:101-121 | after any number of requests, whatever turn each takes, a pool that was idle or balanced is balanced, and every request holds one slot in the pool |
| Integration.RunBranch.Integrate | crates/factory-core/src/factory.rs:3112-3178 | both heads and the outcome are a function of the heads before, the work and the write that fails; nothing is integrated exactly when the committed work is the run head; clean work becomes the head, stale work is replayed onto it, a conflict changes nothing; the record is exact afterwards exactly if the work moved the branch and was recorded, or nothing different was recorded, or it did not move it and the record was exact; no head of the branch is lost |
| Integration.RunBranch.IntegrateAll | crates/factory-core/src/factory.rs:3112-3178 | over any sequence every earlier head is an ancestor of the current one; both heads, each outcome and whether the record is exact are known from the works and the failing writes; a stale record stays as it is until work is integrated |
| Integration.IntegratedHeadHoldsAll | crates/factory-core/src/factory.rs:3127-3166 | the new head has the old one as an ancestor and holds all of the work: the worktree with its open change committed on top, or each of its changes made again on the branch, in order |
| Integration.RecordFollowsExactly | crates/factory-core/src/factory.rs:3112-3178 | after any sequence the record is exact exactly if the last work to move the branch recorded its head, or nothing different was recorded before it, or no work moves the branch and the record was exact |
| Integration.NoLostRecordStaysExact | crates/factory-core/src/factory.rs:3112-3178 | unless a write fails between the move of the branch and its record, an exact record stays exact |
| Integration.NothingNewChangesNothing | crates/factory-core/src/factory.rs:3140-3144 | works whose commits are the branch head already change neither head |
| Integration.RetryLeavesTheRecordStale | crates/factory-core/src/factory.rs:3112-3178 | a concrete run in which a write fails after the branch moved and the second try leaves the recorded head behind it |

## Left out

- Process spawning, HTTP, sessions, SQLite, Git and `gh` internals, ripgrep and its output, symbolic-link and inode checks: operating-system surface.
- Missions, policies, recipes, routing scores, artifacts, timestamps and error texts: a policy is an eligibility predicate or a nondeterministic violation.
- The run's own status column and its recomputation: only the scheduler's result is modelled.
- Manual calls of `mark_task` by a user: they may complete a task without an approved attempt, or free a stalled one.
- Delivery to GitHub by anyone but the factory: only its own workers create pull requests for the run's branch.
- Capture.BoundedOutputCapture.Push: does not model the saturation of the 64-bit byte total.
- Capacity.AgentCapacity.Acquire: does not model the saturation of the 64-bit load, nor a poisoned lock.
- Glob.CompilePattern: does not model the refusal of a pattern whose regular expression exceeds the engine's size limit.
- Ignore.IgnoreRules.IsIgnored: does not model file names that are not Unicode.
- Index.ContextIndex.Refresh: models one unchanging snapshot, so the retry of an unstable read is the single answer of a stable one, and a hash without collisions.
- Search.FallbackPaths: does not model the bounded read and the case-folded comparison; a file either matches or does not.
- Scheduler.Run.WorkStage: gathers the handling of the agent's ending, which the code repeats in its three executors.
- Scheduler.Run.LiveThrough: excludes plan edits during a run, and tasks superseded by them.
- Layout.ComputeLayout: requires unique ids and no cycle, as the plan check guarantees them; with a cycle the code recurses without end.
- `normalize_plan_with_operations`, the metadata of the error stream, and collecting ignore files from disk: they only fill in or gather values.
