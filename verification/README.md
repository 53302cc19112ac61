# Verified model of python-smartdns

python-smartdns is an asynchronous DNS forwarder: it validates a configuration of upstreams and nested upstream
groups, runs every request through plugin hooks around at most one upstream dispatch, and can spread the work over
worker processes behind a coalescing response cache. This project models the parts of it where correctness spans
several functions or a whole protocol, and proves what those parts are for. Sockets, the DNS wire codec and the
tries come from libraries and appear here as parameters.

How the modules follow the program:

- `GroupConfig` is the reference validation of the configuration, with the depth-first search over group references
  written as a class with its shared `visiting`, `visited` and `path`. `Dispatch` is the recursion that this search
  makes terminate, with the race and wait-all loops. A run is an assignment of an outcome to every upstream call and
  of an arrival order to every group; the theorems quantify over all of them.
- `FrontCache` and `Coalescing` are the response cache of the multiprocess master, first one critical section at a
  time as a class, then every interleaving of `process_query` calls as a step system over the same functions.
  `SharedReplies` is about whose question a shared reply carries.
- `WorkerPool` and `PoolRuns` are the pool of worker processes in the same two layers. `PoolHistory` relates the
  table and the outcomes to the steps of the run that led to them. `NestedResolve` is nested resolution in process
  and over IPC, and `ReplyRouting` puts the workers' resolve requests and their replies on top of the pool's runs.
- `AnswerSync` and `Pipeline` are the request context, the hook loops and the final reconciliation of answer and
  response. Hooks are arbitrary functions of the context that may also raise.
- `DomainIndex` (with `Text`) and `QueryLog` are the suffix index and the bounded log with subscribers.
- `IpReplace`, `SpeedTest` and `HttpsParams` are the answer rewriters. `Expansion` is what `IpReplace` does to
  addresses as numbers, and `ThreeTargets` the case of three targets, on top of `Bits` (masks and remainders),
  `FirstOccurrences` (ordered deduplication) and `Rows` (lists expanded through rows).

In the step systems a step is one critical section or one stretch between awaits; nothing is assumed about which
enabled step comes next. `IsRun` says that a list of steps is a run, `StateAfter` is the state it reaches, and the
results hold after every run.

Findings, where the code does something a reader may not expect, each with an input and with the exact condition:

- A resolve request that was accepted from a current worker may be handled after that worker has been replaced
  (`PoolRuns.AcceptedRequestCanGoStale`); `PoolRuns.AcceptedRequestIsFresh` says exactly when it is still the
  sender's. The reply then goes to the queue of the replacement, but however the run goes on it changes no event of
  any worker but the one that asked (`ReplyRouting.StaleReplyIsHarmless`).
- A query that finds no live worker leaves its entry in the pending table until the pool breaks
  (`PoolHistory.LeakHappens`). No other query does: `PoolHistory.PendingIsWaitingOrLeaked` says what is in the table
  after every run, and `PoolHistory.LeakIffNoLiveWorker` when it holds nothing but waiting queries.
- Requests whose names differ only in case share one worker call, and the shared reply carries the question of the
  request it was made for (`SharedReplies.SpellingCanBeAnothers`). When workers repeat the question they are asked,
  all callers get their own question in all runs exactly when requests of one key are spelled alike
  (`SharedReplies.OwnQuestionIff`).
- An answer built from a response may carry an rrset of another type than the question, and is then refused at the
  end: a good response turns into SERVFAIL because a response hook built an answer from it, as the HTTPS plugin does
  (`Pipeline.BuildingTheAnswerMayLoseTheReply`). `AnswerSync.BuiltAnswerSurvivesIff` is the exact condition, and a
  response holding only an alias fails it (`AnswerSync.AliasAloneFails`, `Pipeline.AliasIsLost`).
- Writing back an absent rrset deletes one more record on every call (`AnswerSync.DropIsOneLess`);
  `AnswerSync.SyncIdempotentIff` is the exact condition for a second call to change nothing.
- Domains of tag files are normalised twice and queries once. An entry covers the same queries as the line it was
  read from exactly when the line is steady (`DomainIndex.EntryCoversAsLineIff`);
  `DomainIndex.NormalizeTwiceCanDiffer` shows a line that is not.
- Moving an IPv6 address to a value below 2^32 makes it an IPv4 address, and the rewrite fails;
  `IpReplace.ReplacementFailsIff` is the exact condition and `IpReplace.ReplacementCanFail` an input.
- Replacing addresses again at the response stage is not always without effect. It adds no address exactly when the
  targets are closed (`Expansion.AddsNothingIff`; `Expansion.MixedPrefixesCanGrow` shows targets that are not), and
  closed targets may still change the order (`Expansion.ThreeNestedCanReorder`). Closed targets that descend leave
  the list as it is (`Expansion.DescendingSettles`), and for two and three targets there are exact conditions
  (`Expansion.TwoTargetsSettleIff`, `ThreeTargets.ThreeTargetsSettleIff`).

## Model

| member | source | states |
|---|---|---|
| GroupConfig.CycleSearch.Dfs | dns_forwarder/config/models.py:586-600 | either finishes the node, keeping path and visiting as they were, with visited closed under references and ranked, or returns a genuine closed walk; terminates |
| GroupConfig.CycleSearch.VisitTargets | dns_forwarder/config/models.py:596-597 | without a cycle, every reference of the node on top of the path ends up visited |
| GroupConfig.ValidateGroupCycles | dns_forwarder/config/models.py:578-603 | accepts if and only if the reference graph has no closed walk (self-references included); acceptance yields a rank that drops along every reference, rejection a closed walk |
| GroupConfig.SearchAll | dns_forwarder/config/models.py:602-603 | searching from every node in turn either ranks the whole graph or reports a closed walk |
| GroupConfig.RankForbidsCycles | dns_forwarder/config/models.py:578-603 | a rank that drops along references excludes every closed walk |
| GroupConfig.PathCloses | dns_forwarder/config/models.py:587-590 | the reported path[cycle_start:] + [group_name] is a closed walk of references |
| GroupConfig.FirstDuplicate | dns_forwarder/config/models.py:22-28 | reports a name exactly when the list has a repetition, and then one that occurs twice |
| GroupConfig.ValidateUniqueNames | dns_forwarder/config/models.py:516-522 | accepts exactly when all six name lists are free of repetition |
| GroupConfig.ValidateUpstreamRefs | dns_forwarder/config/models.py:547-554 | accepts exactly when every nameserver reference resolves; an error names an upstream with exactly its missing nameservers |
| GroupConfig.ValidateGroupRefs | dns_forwarder/config/models.py:556-566 | accepts exactly when every group target is an upstream or a group; an error names a group with exactly its missing targets |
| GroupConfig.ValidateRuleRefs | dns_forwarder/config/models.py:568-576 | accepts exactly when every group named by a rule exists |
| GroupConfig.ValidateReferences | dns_forwarder/config/models.py:500-545 | accepts exactly the configurations that pass all eleven checks, and those are dispatchable; otherwise reports a check that fails while all checks before it pass, with a true diagnosis |
| Dispatch.PickFailureResult | dns_forwarder/dispatcher/base.py:49-68 | the first NXDOMAIN, else the first other failure, else the default result |
| Dispatch.RaceCoordinate | dns_forwarder/dispatcher/race.py:53-100 | the loop with its early exit returns the first best result of the arrivals |
| Dispatch.WaitAllCollect | dns_forwarder/dispatcher/wait_all.py:58-88 | the fastest success, ties to the earliest arrival, else the picked failure; it carries the arrivals as collected results |
| Dispatch.FirstBest | dns_forwarder/dispatcher/wait_all.py:61-64 | no result beats the chosen one and every earlier result is beaten by it |
| Dispatch.NestedIsPreferred | dns_forwarder/dispatcher/registry.py:80-118 | for every tree and arrival orders, nested dispatching returns a leaf result that no leaf of the whole tree beats |
| Dispatch.PreferredIsReached | dns_forwarder/dispatcher/registry.py:80-118 | every such leaf is returned for some arrival orders |
| Dispatch.NestedEqualsFlat | dns_forwarder/dispatcher/registry.py:80-118 | over all arrival orders a nested tree and the flat group of its leaves return exactly the same results |
| Dispatch.RaceFlattening | dns_forwarder/dispatcher/race.py:35-100 | nested race: an answer if and only if some leaf answers, and then that leaf's own result; otherwise NXDOMAIN if and only if some leaf reports it |
| Dispatch.WaitAllOptimality | dns_forwarder/dispatcher/wait_all.py:52-88 | nested wait-all: succeeds if and only if some leaf does, with a leaf's result of minimal duration over all successful leaves |
| Dispatch.CollectedIsOnePerTarget | dns_forwarder/dispatcher/wait_all.py:58-64 | collected results are exactly one result per direct target of the top group, whatever the arrival order |
| Dispatch.DispatchTarget | dns_forwarder/dispatcher/registry.py:80-118 | the recursive dispatch terminates by the rank with the tree semantics' result; for an upstream that is the resolver's own result with the request's tags added, or a failure of the target with the very error it raised |
| Dispatch.DispatchGroup | dns_forwarder/dispatcher/registry.py:32-46 | one worker per target, results received in any order, then the strategy's loop: the tree semantics' result |
| Dispatch.SelectGroup | dns_forwarder/rules/engine.py:28-53 | the first enabled matching rule decides; under an accepted configuration the selected group always exists |
| Dispatch.PassedOverIff | dns_forwarder/rules/engine.py:30-53 | a rule is passed over exactly when it is disabled, an excluded tag is present, it names tags of which none is present, or it names other query types |
| Dispatch.UnfoldIsSound | dns_forwarder/resolver/manager.py:35-48 | under an accepted configuration every leaf below a dispatched target is a configured upstream and no node is empty |
| Dispatch.CallIsLeaf | dns_forwarder/dispatcher/registry.py:80-118 | every upstream reached from the group by following targets is asked, at its own position |
| Dispatch.LeafIsCall | dns_forwarder/dispatcher/registry.py:80-118 | and nothing else is |
| Dispatch.DispatchContext | dns_forwarder/pipeline/engine.py:247-274 | group and strategy are those of the first enabled matching rule or the defaults; the result is that of a resolver call made for the group, has an answer if and only if some such call has, is NXDOMAIN otherwise if and only if some call is, and under wait-all is the fastest answer |
| FrontCache.FrontCacheObject.GetResponse | dns_forwarder/core/front_cache.py:23-30 | hits exactly when an unexpired entry is found for the request, and serves that entry |
| FrontCache.HasKeyIff | dns_forwarder/core/front_cache.py:100-107 | exactly queries with one question of class IN have a key |
| FrontCache.SharesKeyIff | dns_forwarder/core/front_cache.py:100-107 | two requests share a key if and only if both have one, their types and classes agree, and their names agree without regard to case |
| FrontCache.StoredIsFound | dns_forwarder/core/front_cache.py:23-47 | a stored response is found, up to id and TTLs, by the same query, and changes no other lookup |
| FrontCache.FrontCacheObject.PutResponse | dns_forwarder/core/front_cache.py:32-47 | stores exactly successful non-empty responses to cacheable requests and touches nothing else; when building the answer raises, nothing is stored |
| FrontCache.StoredIff | dns_forwarder/core/front_cache.py:32-47 | what is stored, on the fields of request and response |
| FrontCache.FrontCacheObject.AcquirePending | dns_forwarder/core/front_cache.py:49-66 | follower of the existing event, or owner of a new one; the whole new state |
| FrontCache.FrontCacheObject.CompletePending | dns_forwarder/core/front_cache.py:68-85 | removes the entry, fills its holder and sets its event; the whole new state |
| FrontCache.CloneCached | dns_forwarder/core/front_cache.py:109-121 | the nested loops rewrite every TTL except those of OPT and TSIG, and the id |
| FrontCache.ServedTtlIsSafe | dns_forwarder/core/front_cache.py:115 | the remaining TTL never reaches past the expiration, falls short of an expiration in the future by less than a second, and never grows with time |
| FrontCache.ServedRecordsExpire | dns_forwarder/core/front_cache.py:109-121 | every record of all three sections is served unchanged but for a TTL with these bounds; pseudo records are untouched |
| FrontCache.ServedIsSameAnswer | dns_forwarder/core/front_cache.py:109-121 | a served response is the stored one up to id and TTLs, and carries the request's id |
| Coalescing.StepKeepsOwners | dns_forwarder/core/front_cache.py:49-85 | every step keeps: a key is pending exactly while one call owns it |
| Coalescing.OneWorkerCallPerKey | dns_forwarder/core/multiprocess/manager.py:144-170 | after every run a key is pending if and only if some call owns it, and never two calls own it |
| Coalescing.OneWorkerCallPerQuery | dns_forwarder/core/multiprocess/manager.py:144-170 | two calls for the same query are never both being worked on |
| Coalescing.FollowerHasLiveOwner | dns_forwarder/core/front_cache.py:87-98 | a follower on an unset event has an owner; the next step leaves both in place or is that owner setting that very event |
| Coalescing.FollowerGetsOwnersReply | dns_forwarder/core/front_cache.py:68-98 | when the owner finishes, its follower returns a copy of the owner's response under its own id, and looks again exactly if that went into the cache or is missing |
| Coalescing.ReplyIsStored | dns_forwarder/core/multiprocess/manager.py:158-160 | a reply that can be stored is then found by the same query, and only then counts as written |
| Coalescing.NoCallIsStuck | dns_forwarder/core/multiprocess/manager.py:144-170 | every unfinished call, or the owner it waits for, can take a step |
| Coalescing.RepliesAreTransparent | dns_forwarder/core/multiprocess/manager.py:144-170 | every reply has the caller's id and is the pool's reply or SERVFAIL for this call, or a copy up to id and TTLs of that for a call for the same name up to case, of the same type and class |
| SharedReplies.ReplyCarriesSharedQuestion | dns_forwarder/core/front_cache.py:87-121 | when workers repeat the question, every reply carries the question of its own call or of a call with the same key |
| SharedReplies.SecondGetsFirstsQuestion | dns_forwarder/core/multiprocess/manager.py:144-170 | for any two requests of one key there is a run in which the second is answered under the first's question |
| SharedReplies.SpellingCanBeAnothers | dns_forwarder/core/front_cache.py:100-107 | two spellings of one name for which that is another question |
| SharedReplies.OwnQuestionIff | dns_forwarder/core/multiprocess/manager.py:144-170 | for any set of requests: all callers get their own question in all such runs if and only if requests of one key have the same question |
| Coalescing.RunsKeepInv | dns_forwarder/core/multiprocess/manager.py:144-170 | the full invariant holds after every run |
| QueryLog.QueryLogStore.AppendLocked | plugins/query_log_plugin/service.py:55-59 | the new entry has the next id, the store keeps the last entries, as many as fit, ids stay contiguous, and all subscriptions are to be woken |
| QueryLog.QueryLogStore.Resize | plugins/query_log_plugin/service.py:46-51 | keeps the last entries, as many as fit, and the contiguity of ids |
| QueryLog.QueryLogStore.ListRecent | plugins/query_log_plugin/service.py:64-70 | the last entries, as many as there are up to the limit, and none for a limit that is not positive |
| QueryLog.StoreHoldsLastAppends | plugins/query_log_plugin/service.py:37-62 | after every run without a resize the store holds exactly the last appended payloads, as many as fit, numbered from 1 in the order of the appends |
| QueryLog.QueryLogStore.EntriesAfter | plugins/query_log_plugin/service.py:72-74 | the loop over ids returns the tail of the store that the arithmetic of contiguous ids predicts |
| QueryLog.QueryLogStore.Unregister | plugins/query_log_plugin/service.py:97-100 | removes the subscription if present and nothing else |
| QueryLog.AfterIsFilter | plugins/query_log_plugin/service.py:72-74 | that tail is exactly the stored entries with a larger id |
| QueryLog.NoLostWakeup | plugins/query_log_plugin/service.py:53-100 | after every run: a subscriber on an unset event with an unseen stored entry will be woken on that very event by the append that stored it, which can proceed |
| QueryLog.QuietMeansCaughtUp | plugins/query_log_plugin/service.py:76-96 | once all appends have finished waking, a waiting subscriber has seen every retained entry |
| QueryLog.YieldsAreOrderedAndGapless | plugins/query_log_plugin/service.py:46-100 | after every run retained ids are the block ending at next id - 1, and a subscriber's yields increase strictly and skip only evicted ids |
| QueryLog.RunsKeepInv | plugins/query_log_plugin/service.py:46-100 | the full invariant holds after every run of appenders, subscribers and resizes |
| WorkerPool.PoolObject.StartWorkers | dns_forwarder/core/multiprocess/pool.py:133-134 | one worker per slot with its own queue and consecutive new generations |
| WorkerPool.PoolObject.RestartFinishedWorkers | dns_forwarder/core/multiprocess/pool.py:318-343 | a sweep replaces exactly the exited workers before the first that ended with the whole pool, asks for a rebuild exactly when there is one, and does nothing while restarting |
| WorkerPool.SweptIsLive | dns_forwarder/core/multiprocess/pool.py:318-343 | swept slots hold live workers: the old one if it was live, else one of a new generation with the same id |
| WorkerPool.PoolObject.NextWorker | dns_forwarder/core/multiprocess/pool.py:363-371 | finds a live worker if and only if there is one, and then the first live one in round-robin order; with all workers live, the slot of the turn modulo their number |
| WorkerPool.NextTurn | dns_forwarder/core/multiprocess/pool.py:366-368 | consecutive turns give consecutive slots, and the first after the last |
| WorkerPool.PoolObject.IsCurrentMessage | dns_forwarder/core/multiprocess/pool.py:373-385 | true exactly when the first worker with that id has that generation |
| WorkerPool.PoolObject.HandleQueryResponse | dns_forwarder/core/multiprocess/pool.py:271-281 | records outcome and sets the event of the named query only; unknown ids change nothing |
| WorkerPool.PoolObject.FailPending | dns_forwarder/core/multiprocess/pool.py:420-424 | every pending event is set with the error, every other is untouched, and the table is empty |
| WorkerPool.RoundRobinCovers | dns_forwarder/core/multiprocess/pool.py:366-368 | every slot is tried at some offset of one round |
| PoolRuns.StepKeepsSlots | dns_forwarder/core/multiprocess/pool.py:318-361 | a step keeps a slot's worker or installs one with a generation never handed out before |
| PoolRuns.SlotsMatchQueues | dns_forwarder/core/multiprocess/pool.py:345-361 | after every run slot i holds worker i with queue i, and generations are distinct and below the counter |
| PoolRuns.RetiredForGood | dns_forwarder/core/multiprocess/pool.py:379-403 | a replaced generation never becomes current again, through any restarts and rebuilds |
| PoolRuns.StaleMessagesAreIgnored | dns_forwarder/core/multiprocess/pool.py:244-281 | however the run continues, query responses and resolve requests of a replaced worker change nothing |
| PoolHistory.NoOrphanedWaiter | dns_forwarder/core/multiprocess/pool.py:188-221 | after every run a waiting query has its unset event pending under its own id, or its event set with an outcome that a worker current at that time sent under this id, or the breaking of the pool, delivered |
| PoolHistory.ReturnedOutcomeWasDelivered | dns_forwarder/core/multiprocess/pool.py:209-221 | every response or failure a query returned was delivered to it by such a step of the run |
| PoolRuns.BreakingFailsEveryWaiter | dns_forwarder/core/multiprocess/pool.py:387-392 | breaking the pool leaves no waiter unset, and each it finds unset gets the error |
| PoolRuns.ResponseResolvesOneQuery | dns_forwarder/core/multiprocess/pool.py:271-281 | a response leaves the event and holder of every query with another id untouched |
| PoolRuns.ResponseReachesItsQuery | dns_forwarder/core/multiprocess/pool.py:254-281 | a current worker's response to a pending query makes that query return the response's own outcome |
| PoolHistory.PendingIsWaitingOrLeaked | dns_forwarder/core/multiprocess/pool.py:194-214 | after every run an id is pending exactly when its query waits and was submitted since the pool last broke, or was submitted since then and found no live worker |
| PoolHistory.LeakIffNoLiveWorker | dns_forwarder/core/multiprocess/pool.py:197-198 | after every run all pending ids are those of waiting queries exactly when no query since the last break found no live worker |
| PoolHistory.LeakHappens | dns_forwarder/core/multiprocess/pool.py:197-198 | a run of a pool of one worker after which an entry is left behind |
| PoolRuns.AcceptedRequestIsFresh | dns_forwarder/core/multiprocess/pool.py:259-304 | an accepted request's sender is still current exactly when its slot has not been refilled since |
| PoolRuns.AcceptedRequestCanGoStale | dns_forwarder/core/multiprocess/pool.py:259-304 | from any reachable state an accepted request can come to be handled after its sender was replaced |
| PoolRuns.SweepIsRestarts | dns_forwarder/core/multiprocess/pool.py:318-343 | the supervisor's sweep, up to a broken worker, is a sequence of the single restarts that runs are made of |
| PoolRuns.RunsKeepInv | dns_forwarder/core/multiprocess/pool.py:188-424 | slots, pending table, waiters and accepted requests keep their invariants over every run |
| NestedResolve.StartedExtends | dns_forwarder/pipeline/engine.py:284-300 | a resolution that starts extends its parent's chain by one new normalised query |
| NestedResolve.StartsIff | dns_forwarder/core/multiprocess/worker.py:110-116 | a resolution starts exactly for a non-empty name and type that are not in the chain, below the depth of 8; repeating one is refused as recursion |
| NestedResolve.SameSignatureIff | dns_forwarder/pipeline/context.py:77-83 | two queries are the same exactly when their stripped names and types agree without regard to case |
| NestedResolve.DepthIsChainLength | dns_forwarder/pipeline/engine.py:293-335 | the number of nested resolutions above a context is the length of its chain |
| NestedResolve.NestedResolutionIsBounded | dns_forwarder/pipeline/context.py:73-83 | for arbitrary resolver behaviour, in process or over IPC, chains never repeat a query and no context lies deeper than 8 |
| NestedResolve.WorkerResolver.Begin | dns_forwarder/core/multiprocess/worker.py:104-133 | registers exactly the accepted resolutions, under the fresh id |
| NestedResolve.WorkerResolver.ReceiveResponse | dns_forwarder/core/multiprocess/worker.py:150-167 | the first response to a waiting request sets its event with the error it names, else its message, else an error of its own |
| NestedResolve.ResponsesAreIdempotentAndLocal | dns_forwarder/core/multiprocess/worker.py:150-167 | a second response to an id, or one to an unknown id, changes nothing; other requests are never touched |
| ReplyRouting.ReplyIsForItsAsker | dns_forwarder/core/multiprocess/worker.py:224-226 | after every run, reading a reply changes nothing at a worker other than the one that asked under its id |
| ReplyRouting.StaleReplyIsHarmless | dns_forwarder/core/multiprocess/pool.py:283-304 | the reply to a request whose sender was replaced before its handling began goes to the queue of the replacement; whatever happens before and after it is sent, reading it changes no event of any worker but the one that asked |
| NestedResolve.ErrorKindSurvivesIpc | dns_forwarder/core/multiprocess/ipc.py:54-67 | NXDOMAIN and refused recursion keep their kind across processes, and no other error turns into one unless it bears the name |
| AnswerSync.LastMatch | dns_forwarder/pipeline/context.py:120-123 | the position of the last rrset of the queried type and class, or none |
| AnswerSync.AnswerObject.SyncRrset | dns_forwarder/pipeline/context.py:114-133 | refuses exactly an rrset of another type or class, without touching the response; else the new answer section |
| AnswerSync.SyncTouchesOnlyLastMatch | dns_forwarder/pipeline/context.py:119-131 | only the last rrset of the queried type and class is replaced, deleted or appended; all others stay in order |
| AnswerSync.DropIsOneLess | dns_forwarder/pipeline/context.py:125-127 | with no rrset each call deletes one more matching record |
| AnswerSync.SyncIdempotentIff | dns_forwarder/pipeline/context.py:114-133 | a second call changes nothing if and only if there is an rrset or at most one record matched |
| AnswerSync.AnswerAndResponseAgree | dns_forwarder/pipeline/engine.py:369-395 | an answer decides the response whatever response stood beside it; without an answer the response stays and the answer is built from it |
| AnswerSync.FinalReplyCarriesRrset | dns_forwarder/pipeline/context.py:114-154 | whatever the library does, reconciling an answer succeeds exactly when its rrset is of the queried type and class and the library accepts the synced response; if it parses that as it is, the reply is the synced response under the request's id, with the rrset as the last record of its type |
| AnswerSync.BuiltAnswerSurvivesIff | dns_forwarder/pipeline/context.py:94-117 | whatever the library does, an answer built from a response survives reconciliation exactly when what it carries, the chosen rrset or else the first record, is of the queried type and class or nothing, and the library accepts it |
| AnswerSync.OtherTypesAreNotAnswerable | dns_forwarder/pipeline/context.py:106-110 | a message whose records are all of other types passes only if it has none |
| AnswerSync.AliasAloneFails | dns_forwarder/pipeline/context.py:106-117 | a response holding only an alias, handled by the library, is fine by itself, and the answer built from it cannot be reconciled |
| Pipeline.RequestContext.RunHooks | dns_forwarder/plugin_api/base.py:199-216 | the loop leaves the context of the reference fold and tells whether a hook raised |
| Pipeline.RequestContext.RunFinish | dns_forwarder/plugin_api/base.py:222-231 | every loaded plugin's finish hook runs exactly once, in loading order, whatever the others do |
| Pipeline.RequestContext.RunRequestPhase | dns_forwarder/pipeline/engine.py:156-200 | dispatches once, exactly when no request hook raised, dropped, stopped or supplied a final; the phase's result and new context |
| Pipeline.RequestContext.RunResponsePhase | dns_forwarder/pipeline/engine.py:202-216 | the response hooks run only when processing was not stopped; the phase's result and new context |
| Pipeline.RequestContext.FinalizeContext | dns_forwarder/pipeline/engine.py:369-395 | on success both finals are set and are the reconciled pair |
| Pipeline.HandleMessage | dns_forwarder/pipeline/engine.py:52-113 | for arbitrary hooks, on what the hooks do: no reply exactly when the request hooks, or response hooks that were allowed to run, drop; SERVFAIL with the request's question and no records when a hook or the dispatch raises; else a reply with the request's id; at most one dispatch, exactly when nothing stands against it; every finish hook once; invalid requests get FORMERR and run nothing |
| Pipeline.HooksRunUpToFirstEnd | dns_forwarder/plugin_api/base.py:199-220 | hooks run in order up to and including the first that raises, or drops or stops where that is heeded |
| Pipeline.PhasesOnHooks | dns_forwarder/pipeline/engine.py:156-216 | how the phases end, stated on the single hooks and the dispatch |
| Pipeline.ObserversHaveTheLastWord | dns_forwarder/pipeline/engine.py:75-94 | the client gets a copy of the response the observers leave, and SERVFAIL if there is none or it cannot be copied |
| Pipeline.OutcomeReachesClient | dns_forwarder/pipeline/engine.py:180-200 | with plugins that do nothing and any library, the client gets what becomes of the dispatched answer, of NXDOMAIN, or of SERVFAIL |
| Pipeline.FinalsDecideReply | dns_forwarder/pipeline/engine.py:369-395 | whatever the library does, the answer the hooks leave decides the reply, else the response they leave, else SERVFAIL |
| Pipeline.FinalAnswerReachesClient | dns_forwarder/pipeline/engine.py:391-395 | the answer the response hooks leave is what the client gets, whatever response they leave beside it; SERVFAIL if its rrset is of another type or the library does not accept it |
| Pipeline.BuildingTheAnswerMayLoseTheReply | plugins/https_plugin/plugin.py:34-42 | a response left alone reaches the client; with the answer built from it the client gets SERVFAIL whenever the response is not answerable, and else the synced response |
| Pipeline.AliasIsLost | plugins/https_plugin/plugin.py:34-42 | an alias alone is delivered without an answer and lost with one |
| DomainIndex.NormalizeTwiceIff | dns_forwarder/core/domainset.py:19-25 | the second normalisation changes nothing exactly when, outer blanks and trailing dots aside, the line ends in no blank and its marker is followed by neither a blank nor another marker |
| DomainIndex.EntryCoversAsLineIff | dns_forwarder/core/domainset.py:71-78 | the indexed entry covers the same queries as the line it was read from exactly then |
| DomainIndex.NormalizeTwiceCanDiffer | dns_forwarder/core/tag_files.py:28-32 | a line with a doubled marker, on which it does not |
| Text.CanonicalParts | dns_forwarder/core/domainset.py:20 | a text is blanks, a core, dots and blanks, and its canonical form is the core in lower case |
| Text.CaseForms | dns_forwarder/core/domainset.py:20 | lower case is the spelling without capitals and upper case the one without small letters |
| Text.LowerSameIff | dns_forwarder/core/domainset.py:20 | texts have the same lower-case form exactly when they agree letter by letter without regard to case |
| DomainIndex.PrefixIffLabelSuffix | dns_forwarder/core/domainset.py:28-30 | reversed forms are string prefixes if and only if the labels are a suffix |
| DomainIndex.DottedIsPrefixCode | dns_forwarder/core/domainset.py:28-30 | with the trailing dot labels form a prefix code, even with empty labels |
| DomainIndex.SplitOfJoin | dns_forwarder/core/domainset.py:81-86 | splitting a join of separator-free parts gives the parts back |
| DomainIndex.TagRoundTripIff | dns_forwarder/core/domainset.py:81-86 | decoding encoded tags gives them back if and only if all are non-empty and free of NUL |
| DomainIndex.BuildEntries | dns_forwarder/core/domainset.py:71-78 | the dictionary holds exactly the tags of the keyed entries |
| DomainIndex.Lookup | dns_forwarder/core/domainset.py:49-57 | the union of the tags of all stored prefixes; an error exactly for an empty name on a non-empty index |
| DomainIndex.LookupIsLabelSuffixMatch | dns_forwarder/core/domainset.py:49-57 | that union is exactly the tags of the entries whose labels are a suffix of the query's labels |
| DomainIndex.TagsOf | dns_forwarder/core/domainset.py:40-57 | from entries to answer: exactly the tags of the covering entries; an error exactly for an entry that normalises to nothing, or an empty query on a non-empty index |
| FirstOccurrences.DedupKeepsFirsts | plugins/ip_replace_plugin/service.py:141-152 | what is kept are the first occurrences, in their order |
| IpReplace.MapIpToNetwork | plugins/ip_replace_plugin/service.py:154-162 | masking and or-ing equals network address plus host part |
| IpReplace.ImageFamilyIff | plugins/ip_replace_plugin/service.py:161-162 | the image keeps its family exactly when it is not an IPv6 value below 2^32 |
| Expansion.PlaceLandsInTarget | plugins/ip_replace_plugin/service.py:154-162 | the image lies in the target, keeps the host bits and fits the width |
| IpReplace.ExpandAddresses | plugins/ip_replace_plugin/service.py:136-152 | the nested loops compute the deduplicated images |
| Expansion.ExpansionIsExact | plugins/ip_replace_plugin/service.py:136-152 | the expansion is free of duplicates and holds exactly the images of address times target |
| Expansion.ImagesInOrder | plugins/ip_replace_plugin/service.py:143-146 | the images come address by address, and for each address target by target |
| Expansion.ExpansionKeepsFirsts | plugins/ip_replace_plugin/service.py:147-151 | the expansion keeps their first occurrences, in this order |
| Rows.AloneDecides | plugins/ip_replace_plugin/service.py:136-152 | a list of addresses expands twice to the identical list as soon as each of its addresses does alone |
| Rows.PartsSettle | plugins/ip_replace_plugin/service.py:143-151 | how an address settles by two groups of targets in turn |
| Expansion.DescendingSettles | plugins/ip_replace_plugin/service.py:136-162 | with any number of closed targets, if from every new shortest prefix on all prefixes are shorter than all before it, a second expansion gives the identical list |
| Expansion.ShortestFirstSettles | plugins/ip_replace_plugin/service.py:136-162 | so it does with closed targets of which the first has the shortest prefix |
| Expansion.SamePrefixSettles | plugins/ip_replace_plugin/service.py:136-162 | so it does with targets of one prefix length |
| Expansion.NestedSettles | plugins/ip_replace_plugin/service.py:136-162 | so it does with two targets of which one lies inside the other, in either order |
| Expansion.SinglesDecide | plugins/ip_replace_plugin/service.py:136-152 | for any targets, all lists settle if and only if all single addresses do |
| Expansion.TwoTargetsSettleIff | plugins/ip_replace_plugin/service.py:136-162 | for two targets a second expansion gives the identical list for all addresses if and only if the prefixes are equal or the longer-prefix target lies inside the other |
| ThreeTargets.ThreeTargetsSettleIff | plugins/ip_replace_plugin/service.py:136-162 | for three targets it does if and only if they are closed and the second is not larger than the first while the third is not, unless first and third are the same or the two halves of the second |
| Expansion.AddsNothingIff | plugins/ip_replace_plugin/service.py:136-162 | for any targets a second expansion never adds an address if and only if, wherever a smaller target would be moved inside a larger one, targets no larger than it cover the place |
| Expansion.NestedAddsNothing | plugins/ip_replace_plugin/service.py:136-162 | pairwise nested targets never add an address |
| Expansion.MixedPrefixesCanGrow | plugins/ip_replace_plugin/service.py:136-162 | two targets and an address for which a second pass adds an address |
| Expansion.ThreeNestedCanReorder | plugins/ip_replace_plugin/service.py:136-162 | three nested targets and an address for which a second pass changes the order only |
| IpReplace.MatchRule | plugins/ip_replace_plugin/service.py:111-125 | the first applicable rule, or none when none applies |
| IpReplace.LeftAloneIff | plugins/ip_replace_plugin/service.py:35-60 | an answer is left alone exactly for no tags, a skipped tag, no normal address answer, or no rule with a matching and no excluded tag and targets of the family; else the first such rule applies |
| IpReplace.ReplaceAnswer | plugins/ip_replace_plugin/service.py:35-91 | the rewritten answer or the failure to build it, and changed exactly when the answer differs |
| IpReplace.ReplacementFailsIff | plugins/ip_replace_plugin/service.py:61-79 | the rewrite fails if and only if a rule applies and takes an IPv6 address to a value below 2^32 |
| IpReplace.ReplacementCanFail | plugins/ip_replace_plugin/service.py:61-79 | a rule and an ordinary IPv6 address on which it fails |
| IpReplace.SecondPassIff | plugins/ip_replace_plugin/service.py:61-71 | after a successful rewrite a second one changes nothing if and only if expanding the values again gives the identical list |
| IpReplace.SecondPassIsNoop | plugins/ip_replace_plugin/service.py:61-71 | so it does for applied targets that are closed and descend |
| IpReplace.SecondPassAddsNothing | plugins/ip_replace_plugin/service.py:61-71 | with closed applied targets a second rewrite has no address the first did not have |
| SpeedTest.SortedOnTimes | plugins/speedtest_plugin/plugin.py:217-223 | sorting keeps the items and puts the fastest first, equal times in candidate order |
| SpeedTest.OrderIsUnique | plugins/speedtest_plugin/plugin.py:217-223 | sequences in that order with the same members are equal |
| SpeedTest.FilterByTolerance | plugins/speedtest_plugin/plugin.py:225-241 | the prefix up to the first item out of tolerance, or everything when none is in tolerance |
| SpeedTest.CutAtGap | plugins/speedtest_plugin/plugin.py:243-258 | the prefix up to the first jump over the threshold, never empty for non-empty items |
| SpeedTest.SelectSorted | plugins/speedtest_plugin/plugin.py:225-261 | the longest prefix in tolerance of the best and without a jump, cut to the limit; non-empty and in order |
| SpeedTest.SelectionIsDetermined | plugins/speedtest_plugin/plugin.py:210-261 | the selection depends only on which items there are, not on how they are listed |
| SpeedTest.AllInfiniteTakesCandidateOrder | plugins/speedtest_plugin/plugin.py:225-261 | with only infinite times the first measured candidates up to the limit, in candidate order |
| SpeedTest.LatestResults | plugins/speedtest_plugin/plugin.py:210-214 | the dictionary of measured candidates, later measurements winning |
| SpeedTest.LatestIsLast | plugins/speedtest_plugin/plugin.py:210-214 | the result of an address is its last usable measurement |
| SpeedTest.SelectAddresses | plugins/speedtest_plugin/plugin.py:210-261 | on the times: fastest first, equal times in candidate order, none faster left out, all within the tolerance of the best and no step beyond the threshold, within the limit; with room left, everything left out is out of tolerance or beyond a gap; non-empty if and only if some candidate is measured; no address twice |
| SpeedTest.SpeedTestContext.ReserveIps | plugins/speedtest_plugin/models.py:26-33 | hands out the unseen addresses in first-occurrence order and marks all of them seen |
| SpeedTest.ReservationsAreDisjoint | plugins/speedtest_plugin/models.py:26-33 | over any sequence of calls the lists handed out are free of duplicates and pairwise disjoint |
| SpeedTest.EveryAddressIsGranted | plugins/speedtest_plugin/models.py:26-33 | every address asked for is handed out by some call |
| HttpsParams.SanitizeRdata | plugins/https_plugin/plugin.py:87-130 | the step-by-step form computes the cleaned record with its priority and target, reports a change exactly when it differs, exactly when it was not clean, and counts the ids and hints |
| HttpsParams.FixedIffClean | plugins/https_plugin/plugin.py:87-130 | a record is left as it is if and only if it has no h3 and no hint |
| HttpsParams.SanitizedIsClean | plugins/https_plugin/plugin.py:94-114 | no h3 and no hint remains |
| HttpsParams.SanitizeIsIdempotent | plugins/https_plugin/plugin.py:87-130 | cleaning twice is cleaning once |
| HttpsParams.OnlyH3AndHintsGo | plugins/https_plugin/plugin.py:94-126 | unrelated parameters keep presence and value; alpn and no-default-alpn go only when h3 was the only id |
| HttpsParams.ListsAreFiltered | plugins/https_plugin/plugin.py:94-126 | the remaining protocol ids and mandatory keys are the old ones without what was removed, in order |
| HttpsParams.ConsistencyIsKeptExactly | plugins/https_plugin/plugin.py:105-126 | the cleaned record is consistent (sections 7.1.1 and 8 of RFC 9460) if and only if the original was |
| HttpsParams.CleanedRecordCanBeBuilt | plugins/https_plugin/plugin.py:116-130 | from a well-formed record cleaning makes a well-formed one |
| HttpsParams.SanitizeEach | plugins/https_plugin/plugin.py:65-79 | every record cleaned, and the totals of changed records, ids and hints |
| HttpsParams.HttpsAnswer.Sanitize | plugins/https_plugin/plugin.py:56-85 | the new rrset, of the same name, type and TTL, and the totals; answers of other types are untouched |
| HttpsParams.TotalsAreCounts | plugins/https_plugin/plugin.py:65-85 | the totals are the number of records that change, of records with either hint, and of protocol ids gone |
| HttpsParams.AnswerIsSanitized | plugins/https_plugin/plugin.py:56-85 | afterwards the records are distinct, clean, and exactly the cleaned originals, in their order |
| HttpsParams.SecondPassIsNoop | plugins/https_plugin/plugin.py:56-85 | a second pass changes nothing and counts nothing |

## Left out

- Wire codec: parsing one's own serialised message is the identity in `FrontCache` and `Coalescing`; a serialisation failure after the pending entry was removed is not modelled. `AnswerSync` and `Pipeline` leave the codec arbitrary and let it raise.
- Cancellation and reload in mid-flight: `Coalescing` is about one front cache whose calls are not cancelled; `process_query` reads the cache field anew at every use, so a reload can complete the wrong one.
- Worker replies in `Coalescing` are taken to carry the request's id, which is what `Pipeline.HandleMessage` establishes for the worker's side.
- FrontCache.FrontCacheObject.CompletePending: a failure to serialise the response after the entry was removed, which would leave followers waiting, is not modelled, because every response in question was parsed from its wire form or made by the forwarder.
- LRU eviction is a step that may forget any entry at any time; sizes and recency are not modelled, and a hit in `Coalescing` may also serve an expired entry, which only adds behaviour.
- Dispatch.WaitAllCollect: results are values, so that the returned object is itself an element of its own collected results is not captured; the copy inside has the fields from before the assignment.
- Dispatch.DispatchContext: the notifications of single results and the waiting for other tasks after cancellation are left out; a notification is taken not to raise.
- Dispatch.DispatchTarget: durations are real numbers, so a duration that is not a number is left out.
- WorkerPool.PoolObject.RestartFinishedWorkers: the stopping flag is left out with the stopping of the pool.
- Pool start and stop, process and thread mechanics, and query log forwarding from workers: only their effect on the tables appears. A request queue that refuses a message is one outcome, `QueueFull`.
- Pipeline.HandleMessage: building an answer from the forwarder's own SERVFAIL is taken not to raise, plugin orders are given as sequences, and cancelled requests are left out. Making an error response to a message that is itself a response is not modelled.
- ReplyRouting.StaleReplyIsHarmless: any worker may read any reply at any time, and a reply may be sent more than once, which only adds behaviour; ids of resolve requests are fresh, as random identifiers are.
- NestedResolve: the outcome of a nested dispatch and the timeouts of the waiting worker are left out; every chain is covered without them.
- Text: ASCII blanks and letters only; Unicode blanks and case mapping are left out.
- DomainIndex.TagsOf: the trie library is a map with a prefix search, the UTF-8 encoding of tags is the identity, and the order of sorted tags is any order. Reading the tag files is left out.
- Expansion.DescendingSettles: for four or more targets being closed is necessary, and descending is sufficient but not necessary, for the identical list.
- IpReplace.ReplaceAnswer: addresses are values, not texts; two spellings of one address are the same. Writing the new rrset back into the response is `AnswerSync`.
- SpeedTest.SelectAddresses: times are real numbers or infinite, tolerance and threshold are finite; collecting candidates, measuring them, appending results and the fallback addresses are left out.
- HttpsParams.HttpsAnswer.Sanitize: alpn is taken to hold ids and mandatory to hold keys, as the record class ensures; owner, class and the textual order of parameters are left out.
- The cache plugin: it follows the same protocol as the front cache but does not clear its ownership mark, so single ownership is not claimed for it.
- Listeners, HTTP and DoH routes, the web interface, nameserver clients, the IP set, and the block, redirect, sample, tag and filter plugins: input and output, libraries, or members that would only add easy claims.
- Field normalisation of the configuration, logging and JSON schema generation.
