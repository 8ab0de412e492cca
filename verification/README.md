# SentinelMAS: verified models of the shared services

SentinelMAS runs a fleet of LLM agents that resolve support tickets over SSH. These modules model
the pieces whose correctness is a property of whole runs or of all inputs, follow the Python code
branch by branch, and prove what that code promises, or exactly when it does.
`dafny verify dfyconfig.toml` checks the project.

| part of the system | modules | form |
|---|---|---|
| LLM rate limiter and daily cost (`services/shared/rate_limiter.py`) | `RedisKeys`, `Pricing`, `RateLimiter`, `CostCeiling`, `DailyCost`, `SharedLimiter`, `LimiterOvershoot`, `LimiterStore` | expiring keys; histories of script runs and commands; N interleaved agents as a step machine, and its refinement by single commands on the three keys; class `Store` tied to the histories |
| ticket graph and tool loop (`services/client-agent/graph.py`) | `PyText`, `ToolLoop`, `VaultSessions`, `TicketGraph` | the turn loop with its `finally` as a method against `Turns` and a trace of sessions and tools; the seven nodes as a step function over the merged state; every outside answer is an arbitrary oracle |
| orchestrator (`consumer.py`, `worker_pool.py`, `supervisor.py`, `task_queue.py`) | `Routing`, `Orchestrator`, `OrchestratorRuns`, `WorkerPool` | one step machine over queues, consumer, permits and registry; class `Pool`, whose every method is one step of that machine |
| SSH session registry (`services/ssh-vault/session_registry.py`) | `SessionRegistry` | step machine over the session table and the uses made of each client; class `Registry` |
| retrieval (`services/rag-service/`) | `Ranking`, `Bm25Index`, `HybridSearch`, `Products`, `SemanticCache` | stable sort and its laws; class `Index`; the fusion loops as a method; the cosine over `real`; class `Cache` |
| text kernels (`sanitiser.py`, `formatter.py`) | `Patterns`, `Sanitiser`, `PromptMarkers`, `HtmlEscaper` | the patterns as descriptions and as matching, the passes and the replacement chain as functions, the pass loop as a method |

Time, model replies, search results, tool outputs, tokens, SSH connections and BM25 scores are
parameters. A square root is any function that returns a non-negative root.

## What the code does differently from its documentation

- The limiter's docstring speaks of a token bucket and of the "current 60s window". Every grant refreshes
  both expiries, so the counters count a *burst*: the longest run of grants with gaps under 60 s. This
  bounds every window of 60 s, but it also denies calls a sliding window would allow. Its next answers are
  those of a sliding window exactly if the burst is under a minute old, or has room for a request and its
  older part used no tokens; if every call asks for tokens, the age alone decides (`SlidingWindowExactlyWhen`).
- The daily ceiling is not a hard stop. A cost is a whole number of prompt-token prices. With N agents whose
  calls use at most K of them, the total can reach all the tokens priced below the limit plus N·K, on the
  real script and keys and with every cost recorded properly, and no more (`LimiterOvershoot.LargestIsBound`,
  `LargestIsReached`). It is a hard stop exactly if nothing can be spent (no agents, free calls, no budget, or
  a request limit that refuses every call), or for one agent that spends token by token onto a limit that is
  the price of whole tokens (`HardStopExactlyWhen`). The money spent is bounded for each life of the key
  (`SharedLimiter.SpentBound`).
- "Spend today" is approximate. `INCRBYFLOAT` and `EXPIRE` are separate commands, so a cost recorded just
  after midnight can be lost (exactly when, with any commands of other agents in between:
  `RecordKeptExactlyWhen`); an `EXPIRE` computed from an old clock shortens the new day's key
  (`KeptPastMidnightExactlyWhen`); and the previous day's total counts for a whole new day exactly if some
  `EXPIRE` of the new day arrives in the minute before the old key lapses (`CarriedOverExactlyWhen`).
- A ticket with a missing field is marked `failed` at intake, but no edge leaves the graph there: the run
  goes on. A refused vault session goes to `verify` and is retried. `error` is never cleared, so a
  resolved ticket can carry one (`StaleError`).
- The consumer is meant to run until it is stopped, but only `json.JSONDecodeError` is caught. It runs on
  exactly if no entry is ever pushed that is JSON but no object, or on which reading raises anything else
  (bytes that are not UTF-8, an integer of too many digits, nesting too deep): the exception leaves the loop
  and the entry is gone (`SurvivesExactlyWhen`).
- A task id that is a list or object raises before `_run`'s `try`, so its permit is never released; permits
  add up in every run exactly if no such id is pushed (`NoLeakExactlyWhen`).
- A failing classification call loses the task; only unreadable answers fall back to `ticket`
  (`Routing.LostExactlyWhen`).
- The orchestrator watches the queues it pushes to, so it competes with the specialists for the same task.
  A task it takes back while its first worker is still finishing loses its registration; even with task
  ids that are never pushed twice, the registry is the set of running workers in every run exactly if the
  pool has at most one permit (`RegistryExactExactlyWhen`).
- The fusion constant 60 guarantees that entries found by both rankings come first exactly for lengths
  with (m-1)(n-1) < 3721, so up to 61 a side.
- An all-zero embedding is cached, but found again only if the similarity threshold is not positive
  (`WrittenMatchesItself`); with the default of 0.92 it never is (`MatchesExactlyWhen`).
- Prompt markers are removed in one pass each, so one can be left with another inside it
  (`NestedMarkerSurvives`). For every text, none is left exactly if, in what the role pass leaves, none can be
  read across instruction markers that ends before the cut at 4000 characters (`OutputIsMarkerFreeExactlyWhen`).

## Model

| member | source | states |
|---|---|---|
| RateLimiter.CountersTrackBurst | services/shared/rate_limiter.py:38-49 | at every later instant the two Redis counters read exactly the number and the tokens of the last burst of grants, 0 once a minute has passed |
| RateLimiter.GrantedExactlyWhenBurstHasRoom | services/shared/rate_limiter.py:41-42 | a call is granted if and only if the burst still counted leaves room for one request and for the estimate; a denial changes no grant |
| RateLimiter.GrantsFit | services/shared/rate_limiter.py:30-49 | every burst of grants fits both limits, grants are in time order |
| RateLimiter.SlidingWindowBound | services/shared/rate_limiter.py:30-49 | for every history with a clock that never goes back, every half-open span of 60 s holds at most RPM_LIMIT grants, and at most TPM_LIMIT tokens if no estimate is negative; any RPM_LIMIT + 1 grants in a row take at least 60 s |
| RateLimiter.QuietMinuteResets | services/shared/rate_limiter.py:45-48 | after 60 s without grants only the call's own size decides |
| RateLimiter.NeverLooserThanSlidingWindow | services/shared/rate_limiter.py:41-42 | whatever is granted, a sliding window of 60 s would grant |
| RateLimiter.SlidingWindowExactlyWhen | services/shared/rate_limiter.py:30-49 | in every history, for the limits it ran under: the next answers are those of a sliding window for all estimates from 0 on if and only if the counted burst is under a minute old, or has room for a request and as many tokens as the past minute; if every call asks for tokens, if and only if it is under a minute old |
| RateLimiter.DeniedWithRoomInWindow | services/shared/rate_limiter.py:45-48 | a concrete history in which a call is denied although its minute holds fewer grants than the limit |
| CostCeiling.StepKeepsOvershoot | services/shared/rate_limiter.py:71-83 | each step of each agent keeps: total plus one maximal cost per busy agent is below limit plus one per agent |
| CostCeiling.RunKeepsOvershoot | services/shared/rate_limiter.py:71-102 | so does every run from any state that has it |
| CostCeiling.OvershootBound | services/shared/rate_limiter.py:71-102 | in every interleaving of N agents the daily total is 0 or below DAILY_COST_LIMIT_USD + N times the largest cost of a call |
| DailyCost.ExpiryFollowsMidnight | services/shared/rate_limiter.py:97-100 | an expiry set at time t lies in (M+59, M+60] for the first UTC midnight M after t |
| DailyCost.TotalSinceLastClear | services/shared/rate_limiter.py:95-100 | a live total is exactly the sum of the costs added since the last addition that found no live key, with no reset and no lapse since |
| DailyCost.NoCostDroppedBeforeMidnight | services/shared/rate_limiter.py:91-102 | with clocks of the same or later days, every recorded cost stays in the total until 59 s past its day's end, unless reset |
| DailyCost.RecordKeptExactlyWhen | services/shared/rate_limiter.py:95-100 | with any commands of other agents between the increment and the expiry, a cost is in the total the expiry leaves if and only if those commands and the expiry all arrived before the key lapsed, as the latest expiry before each left it; otherwise a live total is the one without it |
| DailyCost.CountsExactlyWhen | services/shared/rate_limiter.py:91-102 | what the key held counts in any later reading if and only if every command since, and the reading, came in time; otherwise the reading is as if it had held nothing |
| DailyCost.CompleteExactlyWhen | services/shared/rate_limiter.py:91-102 | a reading is the old total plus all costs since if and only if everything came in time, and at most the costs since otherwise |
| DailyCost.KeptPastMidnightExactlyWhen | services/shared/rate_limiter.py:97-100 | with expiries that arrive within a day, the total is complete 59 s past midnight if and only if every command came in time and the last expiry used a clock of that day or later |
| DailyCost.CarriedOverExactlyWhen | services/shared/rate_limiter.py:91-102 | for every previous and every next day, the previous day's total is part of what the next day reads once the old key would have lapsed if and only if an expiry of the new day arrives before that; otherwise the reading holds no more than the new day's costs |
| DailyCost.DroppedBetweenTheCommands | services/shared/rate_limiter.py:95-100 | a concrete history that loses a cost recorded just after midnight |
| DailyCost.StaleClockShortensTheKey | services/shared/rate_limiter.py:97-100 | a concrete history in which an old clock reading makes the new day's total lapse after a minute |
| SharedLimiter.RunSimulates | services/shared/rate_limiter.py:62-102 | every interleaving of the agents' single commands on the expiring keys, read at any later instant, is a run of the ceiling's step machine |
| SharedLimiter.StoredCostBound | services/shared/rate_limiter.py:62-102 | so whenever the daily key is read it holds nothing or less than the ceiling plus one maximal cost per agent, lapses and late expiries included |
| SharedLimiter.DailyIsReplay | services/shared/rate_limiter.py:86-127 | in every interleaving the daily key is the one that its own commands lead to, each increment of the price of that agent's latest call, so all that is proved of such histories holds of it |
| SharedLimiter.SpentBound | services/shared/rate_limiter.py:62-102 | in every run the prices of the recorded calls add up to at most the ceiling and one maximal cost per agent, for each record that found no live key |
| SharedLimiter.CountersAreReplay | services/shared/rate_limiter.py:30-49 | whatever else the agents do, counters and grants are those of the script runs alone |
| SharedLimiter.GrantsInWindow | services/shared/rate_limiter.py:30-83 | in every interleaving every half-open span of 60 s of grants respects both limits |
| Pricing.CallCostIsPrice | services/shared/rate_limiter.py:24-25 | a call costs 3 dollars for a million prompt tokens and 15 for a million completion tokens, so every cost is a whole number of prompt-token prices |
| LimiterOvershoot.LargestIsBound | services/shared/rate_limiter.py:30-102 | whenever the daily key is read it holds nothing or at most the price of all tokens priced below the ceiling plus one full call per agent |
| LimiterOvershoot.LargestIsReached | services/shared/rate_limiter.py:30-102 | whenever calls can be granted, agents that ask for the same estimate and record every cost properly bring the stored total to exactly that |
| LimiterOvershoot.HardStopExactlyWhen | services/shared/rate_limiter.py:30-102 | no run on the keys ever reads a total over the ceiling if and only if there are no agents, calls cost nothing, the ceiling or the request limit is not positive, or one agent with one-token calls lands on a ceiling of whole tokens |
| LimiterOvershoot.HardStopForEstimateExactlyWhen | services/shared/rate_limiter.py:30-102 | the same over runs in which every call asks for one estimate and every cost is recorded properly, where an estimate over the token limit is one more way |
| LimiterStore.StoreKeepsItsPromises | services/shared/rate_limiter.py:30-127 | any use of a store leaves spans of 60 s within both limits and a live total equal to the costs since the last clear |
| LimiterStore.Store.constructor | services/shared/rate_limiter.py:11-14 | a store on which nothing has been done: no key, no grant |
| LimiterStore.Store.Acquire | services/shared/rate_limiter.py:62-83 | at or above the ceiling nothing changes and the answer is no; below it the grant decision and the new grants are those of the history |
| LimiterStore.Store.RecordUsage | services/shared/rate_limiter.py:86-102 | the returned total is the old live total plus the call's price, and the increment and the expiry enter the history in that order |
| LimiterStore.Store.ResetDailyCost | services/shared/rate_limiter.py:124-127 | the key is gone and the reset is in the history |
| ToolLoop.RunTurns | services/client-agent/graph.py:152-222 | the attempt, from opening the session through the loop to the `finally`, gives the outcome `Attempt` specifies and leaves opening, tools and closing in the trace on every way out |
| ToolLoop.RunTools | services/client-agent/graph.py:190-217 | the inner loop runs the tools in order, answers and logs each with what it did, and stops at the first whose output cannot be serialised |
| ToolLoop.AnswerAnswers | services/client-agent/graph.py:190-217 | every tool call of a turn gets exactly one result, in order, with its id and what its tool did, the value as it is or the message of what it raised as an error; and one log entry with its name, the input it ran on and the same output |
| ToolLoop.TranscriptOf | services/client-agent/graph.py:171-219 | from any consistent point of the loop, what `Transcript` states of whole runs |
| ToolLoop.Transcript | services/client-agent/graph.py:152-219 | every run stops at the first turn that does not ask for tools or has one whose output cannot be serialised, or at MAX_TURNS; that turn's reply alone decides resolved, stopped or raised, and the summary. The transcript starts with the prompt, holds each turn's reply and answers every call with what its tool did: length 1+2k after k completed turns (one more for a closing reply). The tools run are exactly those of the completed turns, and of a raising one up to the tool that ended it; the new log entries are one for each, with name, input and output |
| ToolLoop.SshCallsCarryToken | services/client-agent/graph.py:193-198 | an input gains the session's token if and only if the tool is ssh_execute or hard_restart, a session is open and the model gave none; nothing else in any input changes |
| ToolLoop.PartsOfReply | services/client-agent/graph.py:181-182 | the calls and the texts of a reply are its blocks of that type, in order |
| PyText.JoinAppend | services/client-agent/graph.py:186-186 | the summary joins the texts with one space between two of them |
| VaultSessions.TurnsRunWith | services/client-agent/graph.py:190-222 | whatever way the loop ends, raising ones included, every tool was run on the model's input with the session's token put in where it belongs |
| VaultSessions.AttemptLeavesShut | services/client-agent/graph.py:159-222 | an attempt leaves no session open and does nothing out of order |
| VaultSessions.WatchedIsBracketed | services/client-agent/graph.py:193-222 | in such a trace every opened session is closed, every closing closes one, with nothing but tools in between, and every put-in token is that of the session around the tool |
| VaultSessions.WatchedIsBalanced | services/client-agent/graph.py:220-222 | the tokens closed are the non-empty tokens opened, in order |
| TicketGraph.Finish | services/client-agent/graph.py:297-324 | every run stops, for every behaviour of the outside world: retries left, then nodes left, decrease |
| TicketGraph.RunTicket | services/client-agent/executor.py:24-51 | the graph run node by node from the executor's initial state reaches `Finish` |
| TicketGraph.RunResolveLoop | services/client-agent/graph.py:119-231 | the node, run over the session and the loop, makes the update the graph merges |
| TicketGraph.StepKeepsAttempts | services/client-agent/graph.py:224-256 | every node keeps: as many attempts as retries, all earlier ones failed, `resolved` false before each resolve loop and after it equal to the last attempt's success |
| TicketGraph.StepKeepsBounds | services/client-agent/graph.py:171-172 | every node keeps the visit and model-call budget per attempt |
| TicketGraph.StepKeepsClose | services/client-agent/graph.py:285-291 | close_ticket is entered only on the way to done, once |
| TicketGraph.StepKeepsError | services/client-agent/graph.py:55-60 | `error` is set by a missing field or a refused session and by nothing else |
| TicketGraph.FinishKeeps | services/client-agent/graph.py:297-324 | all of these hold at the end of every run |
| TicketGraph.Outcome | services/client-agent/graph.py:234-256 | a run that does not raise is done iff its last attempt ended its turn, and escalated iff all MAX_RETRIES+1 attempts failed, refused sessions included; close_ticket ran once if done and never otherwise; a done ticket has the last attempt's summary, and every ticket the severity the classification said |
| TicketGraph.Bounds | services/client-agent/graph.py:42-43 | at most 3+4(MAX_RETRIES+1) visits, MAX_RETRIES+1 resolve loops, 1+MAX_TURNS(MAX_RETRIES+1) model calls and one close_ticket, raising runs included |
| TicketGraph.Effects | services/client-agent/graph.py:159-222 | in every run, raising ones included, each session with a token is closed exactly once, after its last tool and before the next opening, and every token put into a tool is that of the session open around it; the ticket row reads thinking, executing once per attempt, then the outcome |
| TicketGraph.StaleError | services/client-agent/graph.py:159-169 | a finished ticket carries an error iff a field was missing at intake or some attempt was refused its session, resolved later or not |
| TicketGraph.LogExtends | services/client-agent/graph.py:154-154 | the execution log is only ever extended, across retries too |
| TicketGraph.LogIsWhatRan | services/client-agent/graph.py:190-217 | in every run the final log is a prefix of the tools run over all attempts, in order, each with its input and what it did, and if the run reaches its end it is all of them |
| TicketGraph.AttemptStartsClean | services/client-agent/graph.py:134-143 | on every entry to the resolve loop `resolved` is false, the prompt's knowledge is the first three results of this attempt's own lookup, or all if there are fewer, and nothing found before is left |
| TicketGraph.AttemptVisit | services/client-agent/graph.py:119-231 | every visit of the resolve loop in every run: it starts clean; a refused session leaves only the error; otherwise the loop runs on this attempt's knowledge and the log so far as `ToolLoop.Transcript` states, in a session if there is a server, and its outcome is merged, or the run is aborted if it raised |
| TicketGraph.RunIsItsVisits | services/client-agent/graph.py:297-324 | a run is its node visits, one after the other |
| Routing.EmittedIsFixed | services/agent-orchestrator/supervisor.py:129-145 | a payload pushed by one pass is pushed unchanged to the same queue by any later pass, whatever the clock and the model say, and its type is not unknown |
| Routing.AnyPassesEqualOne | services/agent-orchestrator/consumer.py:55-78 | any number of passes equals one |
| Routing.LostExactlyWhen | services/agent-orchestrator/supervisor.py:63-114 | a pass loses the task if and only if its type is a list or object, or is unknown and the model call raises or its answer names no agent that can be looked up |
| Routing.RoutedByTypeOrAgent | services/agent-orchestrator/supervisor.py:47-114 | a task of type maintenance goes to the in-server agent's queue, report to the report agent's, any other to the client's; a known type is kept, an unknown one becomes that of the agent the model names, and ticket if it names another or answers no JSON |
| Routing.FieldsSurvive | services/agent-orchestrator/supervisor.py:135-144 | what is pushed has the ids, ticket, server, message and severity of the task, and its creation time if that can be read, else the time of the pass |
| Orchestrator.StepConserves | services/agent-orchestrator/consumer.py:43-88 | each step moves a task between places without duplicating or dropping it |
| Orchestrator.RunConserves | services/agent-orchestrator/consumer.py:100-125 | so does every run from any state |
| Orchestrator.TaskConservation | services/agent-orchestrator/supervisor.py:117-145 | in every run from an empty system each task is in as many places as it was put in: once queued, in hand, with one worker, with a specialist, rejected, crashed or failed |
| Orchestrator.StepKeepsFifo | services/shared/task_queue.py:32-40 | each step keeps: what was popped from a queue, followed by what it holds, is what was pushed |
| Orchestrator.RunKeepsFifo | services/shared/task_queue.py:32-73 | so every queue is first in, first out over whole runs |
| Orchestrator.PopTakesByPriority | services/agent-orchestrator/consumer.py:110-123 | the consumer takes the oldest entry of a queue only if those before it are empty, in the order orchestrator, client, in-server, report, and touches no other queue; a task goes to the pool, invalid JSON is rejected and anything else ends the loop |
| Orchestrator.RoutePushesByType | services/agent-orchestrator/supervisor.py:129-145 | whenever the supervisor routes a task exactly one queue grows, by one entry with the payload of the pass: the one its pushed type belongs on, the other three untouched; if it cannot be routed nothing is pushed |
| Orchestrator.StartRegisters | services/agent-orchestrator/worker_pool.py:60-61 | a worker is registered under the task's own id, `unknown` if it has none, with its start time; an id that cannot be hashed changes nothing but the failures |
| Orchestrator.PermitAccounting | services/agent-orchestrator/worker_pool.py:52-68 | in every run free permits, unfinished workers and leaked permits add up to the maximum, and none leak while task ids are hashable |
| Orchestrator.ActiveCountBound | services/agent-orchestrator/worker_pool.py:92-94 | active_count never exceeds the number of started workers |
| Orchestrator.WatchdogIsExact | services/agent-orchestrator/worker_pool.py:81-90 | with an exact registry the watchdog reports exactly the started workers over the threshold |
| OrchestratorRuns.OwnPushDeregisters | services/agent-orchestrator/worker_pool.py:60-68 | for every routable task with a hashable id and at least two permits, a concrete run of nine events from an empty system, with one push, ends with a worker running the task unregistered |
| OrchestratorRuns.StandsWhereItBelongs | services/agent-orchestrator/supervisor.py:47-51 | in every run whatever stands on a queue or was taken from it was put there by a producer or is a task of a type that belongs there: maintenance with the in-server agent, reports with the report agent, neither with the client agent, and nothing on the orchestrator's own |
| OrchestratorRuns.RegistryExactExactlyWhen | services/agent-orchestrator/worker_pool.py:52-68 | with task ids never pushed twice, the registry is exactly the running workers with their start times in every run if and only if there is at most one permit |
| OrchestratorRuns.NoLeakExactlyWhen | services/agent-orchestrator/worker_pool.py:60-68 | whatever ids producers may use, every permit is free or with an unfinished worker in every run if and only if there are no permits or none of those ids is a list or object |
| OrchestratorRuns.ConsumesExactlyWhen | services/agent-orchestrator/consumer.py:110-123 | from any state, the loop is still running after a run if and only if it was, nobody stopped it and no further entry raised out of it |
| OrchestratorRuns.SurvivesExactlyWhen | services/agent-orchestrator/consumer.py:49-56 | whatever entries producers may push, the loop outlives every run without a stop if and only if neither JSON values that are not objects nor entries whose reading raises anything but JSONDecodeError are among them |
| OrchestratorRuns.PayloadIsKept | services/agent-orchestrator/consumer.py:55-88 | if a tag is only pushed with payload p, then at every moment the entry with that tag, wherever it is and delivered too, carries p or what one pass over p makes of it, however often it was taken back |
| OrchestratorRuns.FieldsAreKept | services/agent-orchestrator/supervisor.py:135-144 | so whatever is delivered under that tag has the task id, trace id, ticket, server, message, severity, readable creation time and known type that were pushed, with the consumer's defaults; a type pushed as unknown stays so or is one of the three |
| WorkerPool.PoolKeepsItsPromises | services/agent-orchestrator/worker_pool.py:29-94 | any use of a pool leaves tasks conserved, queues first in first out, permits adding up, and no more registered ids than started workers |
| WorkerPool.Pool.constructor | services/agent-orchestrator/worker_pool.py:29-34 | an empty system with all permits free |
| WorkerPool.Pool.Enqueue | services/shared/task_queue.py:32-40 | is the push step |
| WorkerPool.Pool.ConsumeNext | services/agent-orchestrator/consumer.py:110-123 | is the pop step if some queue is not empty, and nothing on a timeout |
| WorkerPool.Pool.DispatchHand | services/agent-orchestrator/worker_pool.py:52-58 | is the dispatch step: a permit is taken before the worker exists |
| WorkerPool.Pool.Begin | services/agent-orchestrator/worker_pool.py:60-61 | is the start step; tells whether the id could be registered |
| WorkerPool.Pool.RunSupervisor | services/agent-orchestrator/supervisor.py:63-145 | is the routing step: one push to the queue of the task's type, or failure and clean-up |
| WorkerPool.Pool.End | services/agent-orchestrator/worker_pool.py:64-68 | is the finishing or failing step: deregistered, permit released |
| WorkerPool.Pool.Watchdog | services/agent-orchestrator/worker_pool.py:81-90 | the scan over the registry returns exactly the ids over the threshold |
| SessionRegistry.StepIsSafe | services/ssh-vault/session_registry.py:57-144 | each operation keeps: a client is open iff registered, under one token; it is given only filtered commands before its deadline; closing is its last use |
| SessionRegistry.ResourceSafety | services/ssh-vault/session_registry.py:50-144 | so does every run with fresh tokens and clients |
| SessionRegistry.ClosedExactlyOnce | services/ssh-vault/session_registry.py:127-134 | close() has been called on a client exactly once if its session is gone and not at all before |
| SessionRegistry.CleanUp | services/ssh-vault/session_registry.py:136-144 | an eviction leaves exactly the unexpired sessions, untouched; stop() leaves no session and no open client |
| SessionRegistry.RunsExactlyWhenAllowed | services/ssh-vault/session_registry.py:79-103 | a command reaches a client iff its token is registered, unexpired and the filter allows it, and only that session's client; an expired token is gone afterwards |
| SessionRegistry.SessionLives | services/ssh-vault/session_registry.py:57-103 | a session created at `now` with its own time to live, or the default one for 0, and neither closed nor found expired since, runs a safe command at `later` iff later <= now + that time, else it is expired; its record is what was given |
| SessionRegistry.Registry.constructor | services/ssh-vault/session_registry.py:41-44 | an empty, safe table |
| SessionRegistry.Registry.Register | services/ssh-vault/session_registry.py:57-77 | create(): the new table, with the record given and the default time to live for a missing or zero one |
| SessionRegistry.Registry.CloseSession | services/ssh-vault/session_registry.py:127-134 | _close(): the token is forgotten and its client closed; an unknown token changes nothing |
| SessionRegistry.Registry.Run | services/ssh-vault/session_registry.py:79-125 | execute(): result and new table for each of its four outcomes |
| SessionRegistry.Registry.CloseAll | services/ssh-vault/session_registry.py:54-55 | the closing loop closes each listed session once and nothing else |
| SessionRegistry.Registry.Evict | services/ssh-vault/session_registry.py:140-144 | one eviction pass is the tick step |
| SessionRegistry.Registry.Shutdown | services/ssh-vault/session_registry.py:50-55 | stop() empties the table |
| Ranking.SortIsSorted | services/rag-service/bm25_index.py:95-95 | sorted(reverse=True) gives a descending permutation |
| Ranking.FilterOfSort | services/rag-service/bm25_index.py:95-95 | it is stable: sorting and selecting commute, for every selection |
| Ranking.EarlierStaysAhead | services/rag-service/hybrid_search.py:46-46 | of two items an earlier one with no lower key stays ahead |
| Bm25Index.LoopIsBest | services/rag-service/bm25_index.py:95-100 | sort, cut, early break gives the first top_k of the sorted positive documents |
| Bm25Index.BestIsBest | services/rag-service/bm25_index.py:83-110 | results are positive, descending, distinct, in index order among equal scores; a positive document is left out only by the cut and scores no higher than any result |
| Bm25Index.Index.constructor | services/rag-service/bm25_index.py:35-39 | an empty index |
| Bm25Index.Index.Build | services/rag-service/bm25_index.py:45-81 | the parallel lists are the columns of the table just read |
| Bm25Index.Index.Search | services/rag-service/bm25_index.py:83-110 | the results are the best documents, each with the fields of its own row |
| HybridSearch.CountHits | services/rag-service/hybrid_search.py:32-44 | the two loops leave the union of the ids in first-seen order, the sum of 1/(60+rank) for each, and the last dense or else first sparse hit |
| HybridSearch.RrfMerge | services/rag-service/hybrid_search.py:20-50 | the merged list is the sorted ids, each with its kept hit and its score |
| HybridSearch.Search | services/rag-service/hybrid_search.py:74-92 | malformed points are dropped, the rest fused, and the result cut as a slice is |
| HybridSearch.DenseHitsAre | services/rag-service/hybrid_search.py:74-90 | the well-formed points become hits, in order and with their payloads, and no others do |
| HybridSearch.OrderIsRankedUnion | services/rag-service/hybrid_search.py:46-50 | the merged ids are the union of both lists, each once, in descending score |
| HybridSearch.ScoreIsReciprocalRanks | services/rag-service/hybrid_search.py:35-44 | in duplicate-free lists an id scores 1/(61+i) + 1/(61+j) at ranks i and j, and one term if it is in one list only |
| HybridSearch.KeptHit | services/rag-service/hybrid_search.py:35-44 | the hit kept for an id is its last dense one, or its first sparse one if it has no dense one |
| HybridSearch.TiesInFirstSeenOrder | services/rag-service/hybrid_search.py:46-46 | ids of equal score come in the order in which the dense list, then the sparse one, first has them |
| HybridSearch.AheadInBothStaysAhead | services/rag-service/hybrid_search.py:35-46 | an id ahead of another in both lists stays ahead |
| HybridSearch.EmptyListIsIdentity | services/rag-service/hybrid_search.py:35-46 | merging with an empty list, on either side, keeps the other's order |
| HybridSearch.SwapMovesOnlyTies | services/rag-service/hybrid_search.py:35-46 | swapping the lists keeps the ids and every score, and the order of any two ids whose scores differ |
| HybridSearch.ConsensusHolds | services/rag-service/hybrid_search.py:17-46 | if (m-1)(n-1) < 61*61, or a list is empty, every id in both duplicate-free lists precedes every id in only one |
| HybridSearch.ConsensusExactlyWhen | services/rag-service/hybrid_search.py:17-46 | over all duplicate-free lists of lengths m and n this holds if and only if (m-1)(n-1) < 61*61 |
| HybridSearch.SixtyOneIsEnough | services/rag-service/hybrid_search.py:17-46 | in duplicate-free lists of up to 61 entries every id in both precedes every id in only one |
| SemanticCache.CauchySchwarz | services/rag-service/semantic_cache.py:31-34 | the square of the dot product is at most the product of the squared norms, also when zip cuts the longer vector |
| SemanticCache.LawOfCosines | services/rag-service/semantic_cache.py:31-34 | |a-b|^2 = |a|^2 + |b|^2 - 2 a.b for all vectors, the shorter one continued with zeros |
| SemanticCache.CosineInRange | services/rag-service/semantic_cache.py:31-37 | the similarity of any two vectors lies in [-1, 1] |
| SemanticCache.CosineCommutes | services/rag-service/semantic_cache.py:31-37 | it is symmetric |
| SemanticCache.CosineIgnoresLength | services/rag-service/semantic_cache.py:31-37 | it does not change when a vector is scaled by a positive factor |
| SemanticCache.CosineWithItself | services/rag-service/semantic_cache.py:31-37 | a vector is at 1 with itself iff it is not zero, else at 0 |
| SemanticCache.CosineIsDistance | services/rag-service/semantic_cache.py:31-37 | for vectors with a direction the squared distance of their directions is 2(1 - similarity) |
| SemanticCache.CosineIsZeroExactlyWhen | services/rag-service/semantic_cache.py:31-37 | the similarity is 0 iff the dot product is |
| SemanticCache.CosineIsOneExactlyWhen | services/rag-service/semantic_cache.py:31-37 | for vectors of one length it is 1 iff one is not zero and the other is a positive multiple of it |
| SemanticCache.MatchesExactlyWhen | services/rag-service/semantic_cache.py:58-72 | a live, well-formed entry matches at threshold t iff the directions are within squared distance 2 - 2t; if one of the vectors is zero, iff t is not positive |
| SemanticCache.Cache.constructor | services/rag-service/semantic_cache.py:28-28 | an empty cache |
| SemanticCache.Cache.Find | services/rag-service/semantic_cache.py:47-74 | a lookup answers from the first live, well-formed entry of the scan at or over the threshold; it is None iff there is no such entry and nothing unreadable before the end |
| SemanticCache.Cache.Write | services/rag-service/semantic_cache.py:77-97 | the entry is stored under the embedding's key with the time to live of its kind, and nothing else changes |
| SemanticCache.WrittenMatchesItself | services/rag-service/semantic_cache.py:63-72 | for any settings, a written embedding matches itself and every positive multiple if and only if it is not empty, the threshold is at most 1 (at most 0 for a zero vector) and its time to live has not passed |
| SemanticCache.Defaults | services/rag-service/config.py:16-18 | with the defaults every vector but zero finds itself, entries match whose directions are within squared distance 0.16, and a written entry lives 3600 s if active and 86400 s otherwise |
| SemanticCache.FoundAfterWrite | services/rag-service/semantic_cache.py:47-97 | under that condition on threshold and embedding, a lookup of a just-written embedding, by any scan that reaches its key in time over a store whose values can all be read, neither misses nor raises; writing keeps the store so |
| Patterns.MatchedExactlyWhen | services/api-gateway/sanitiser.py:15-22 | from any place exactly that stretch of the text is matched that the pattern describes: for a tag `<`, one or more characters that are no `>`, `>`; for a role marker three hashes, white space, one of four names in any case, white space, a colon; for a chat token `<&#124;` and `&#124;>` around a text without `&#124;>`; for the other two one of their two literals |
| Patterns.LeftmostIsRemoved | services/api-gateway/sanitiser.py:35-39 | a pass removes the leftmost match, keeps what is before it, and goes on behind it |
| Patterns.RemoveIsIdentityExactlyWhen | services/api-gateway/sanitiser.py:35-39 | and leaves a text as it is iff the pattern describes no part of it |
| Patterns.TagIsRemoved | services/api-gateway/sanitiser.py:22-35 | a first tag goes, the text before it stays, and the pass goes on behind it |
| Patterns.EmptyBracketsStay | services/api-gateway/sanitiser.py:22-35 | a first `<>` stays, and the pass goes on behind it |
| Patterns.UnclosedTextStays | services/api-gateway/sanitiser.py:22-35 | text before any `<` and text with no `>` left are kept, so with the two rows before it the tag pass is fixed for every text |
| Sanitiser.SanitiseTicketInput | services/api-gateway/sanitiser.py:26-44 | the tag pass, the loop over the four marker patterns, the cut and the trim, in that order |
| Sanitiser.TagFreeExactlyWhenNoMatch | services/api-gateway/sanitiser.py:22-22 | the tag pattern matches nowhere iff every '<' with a '>' further on has one right behind it |
| Sanitiser.TagPassIsTagFree | services/api-gateway/sanitiser.py:34-35 | one leftmost pass leaves no tag, for every text |
| Sanitiser.PassKeepsTagFree | services/api-gateway/sanitiser.py:37-39 | removing role and instruction markers never brings a tag together |
| Sanitiser.AngleMarkersGone | services/api-gateway/sanitiser.py:15-20 | on tag-free text the two patterns written with angle brackets match nowhere |
| Sanitiser.OutputIsTagFree | services/api-gateway/sanitiser.py:26-44 | the result has no tag, a second tag pass leaves it alone, it has at most 4000 characters, and the chat and sentence passes did nothing |
| Sanitiser.OutputIsTrimmedCut | services/api-gateway/sanitiser.py:34-44 | the result is the first 4000 characters of what the tag, role and instruction passes leave, without the white space at its ends |
| Sanitiser.FirstTagLeavesNoTrace | services/api-gateway/sanitiser.py:34-44 | a text with a tag gives what the text without its first tag gives |
| Sanitiser.UnchangedExactlyWhen | services/api-gateway/sanitiser.py:26-44 | a text is returned unchanged iff no pattern matches it, it is short enough and it is trimmed |
| PromptMarkers.LeftExactlyWhenReadable | services/api-gateway/sanitiser.py:15-39 | after the pass that removes one kind of marker, a marker of either kind is left if and only if it could be read in the text, from a place where no removed marker starts, across removed markers |
| PromptMarkers.LeftInCutExactlyWhen | services/api-gateway/sanitiser.py:37-42 | the same for the first n characters of what the pass leaves, for any n: if and only if none can be read that ends in them |
| PromptMarkers.OutputIsMarkerFreeExactlyWhen | services/api-gateway/sanitiser.py:26-44 | for every text, cut or not: no pattern matches the result if and only if, in the text after the role pass, no role or instruction marker can be read across instruction markers that ends within the first 4000 kept characters |
| PromptMarkers.NestedMarkerSurvives | services/api-gateway/sanitiser.py:18-18 | a concrete text from whose sanitised form an instruction marker is not gone |
| HtmlEscaper.ChainIsSinglePass | services/report-agent/formatter.py:280-286 | the four chained replacements equal one pass that maps each character on its own |
| HtmlEscaper.Entities | services/report-agent/formatter.py:280-286 | the four characters become their entities and the line break, every other character stays |
| HtmlEscaper.RoundTrip | services/report-agent/formatter.py:280-286 | a decoder recovers every text |
| HtmlEscaper.EscapingIsInjective | services/report-agent/formatter.py:280-286 | no two texts have the same escaping |
| HtmlEscaper.DecodedIsEscaped | services/report-agent/formatter.py:280-286 | and only escapings decode |
| HtmlEscaper.EscapedHasOnlyLineBreaks | services/report-agent/formatter.py:280-286 | in escaped text '<' and '>' stand only in "<br>" before a line break and '&' only at the head of an entity |

## Left out

- RateLimiter.SlidingWindowBound: a key is taken to be gone from the instant its time to live is over, and the clock never goes back; token estimates are integers.
- TicketGraph.Effects: a node that raises is modelled as raising before its own first effect, except inside the tool loop.
- Orchestrator.TaskConservation: says where a task is, not that a specialist ever receives it; the orchestrator competes for the same queues. A push that Redis performs but reports as failed is not modelled.
- SessionRegistry.RunsExactlyWhenAllowed: ends where exec_command is called; a session closed while its command runs is not modelled.
- TicketGraph.Bounds: the graph library stops an invocation after 25 steps by default, and `executor.py:48-51` leaves that default; with the default of 2 retries a run takes at most 15, from 5 retries on the bound exceeds 25 and the library's own error is not modelled.
- The graph library merges a node's returned dict into the state. `StateGraph(dict)` (`services/client-agent/graph.py:298`) declares no keys, so this is an assumption, and every row of TicketGraph rests on it.
- SemanticCache.FoundAfterWrite: the hit may be another entry at or over the threshold, and the results are those of its own query's tags and cut.
- HTTP, SQL, Redis, vector store, SSH and model calls are oracles; Redis eviction under memory pressure, which could drop any key, is not modelled.
- Floating-point rounding: costs, scores and similarities are exact reals, and seconds are exact.
- Negative or zero settings for turns, retries and times to live (Redis refuses those); asyncio cancellation at shutdown.
- The texts of prompts beyond which results they hold, log timestamps, `action_plan`, and the fix pattern stored when a ticket is closed.
- Python equalities across types (1, 1.0 and True are one dictionary key), and JSON numbers that are not integers.
- Digest collisions of cache keys: the key is any function of the embedding.
- BM25 and cross-encoder scoring, embedding, and searches during or between rebuilds of the index.
- The command filter's own patterns, log sanitising and the knowledge-base sanitiser.
- The page around an escaped mail body; report tables, dashboards, health-check parsers, scheduler, migrations, and the report and maintenance graphs, which run their nodes once in a fixed order.
- `get_utilisation`, `cache_stats`, `queue_depth` and `active_tasks`, which only read.
