# Verified models of ussycode's stateful components

ussycode hands out small virtual machines over SSH and HTTPS. This project models the parts of it that keep
state from one request to the next, and proves what they promise over whole runs:

- the token buckets that limit API calls (`ApiRateLimit`, `ApiRateRace`) and LLM calls (`LlmRateLimit`), over a
  common single-bucket theory (`TokenBucket`), and the hourly mail counters (`HourlyLimit`);
- the allocator of mesh subnets (`SubnetLayout`, `SubnetAllocator`);
- the health, dead-node callbacks and command queues of pool nodes (`NodeManager`) and the placement of a VM on
  one of them (`Scheduler`);
- the inbound mail server, from bytes to messages (`SmtpData`, `SmtpSession`), and concurrent delivery into a
  Maildir (`Maildir`);
- guest addresses (`VmNetwork`) and the life of a VM across database, running map and leases (`VmManager`);
- arena ratings (`EloRating`, `ArenaElo`).

Objects that the Go code updates in place are classes whose methods are proved against functions on their
abstract contents; each such function is a step of a run, and the main results quantify over every run.
The clock is a parameter. A body that holds a mutex is one atomic step; where several bodies make one operation
(a call of the API limiter and its cleanup, a Maildir delivery) their steps interleave freely. Foreign commands,
file operations and the writing of rating records succeed or fail as an extra argument says.

What the proofs found, beyond the promises that hold as they stand:

- In runs of whole calls, evicting idle API buckets is invisible exactly when `burst <= rate * 2 * cleanup`; otherwise
  two bursts pass at once. The comment at `internal/api/ratelimit.go:108`, that the buckets removed have full tokens, is
  right under the same condition only. In such runs waiting the time of `Retry-After` is enough under every setting, and
  needed exactly when one token is regained before the cleanup may delete the bucket.
- But the bucket lookup and the deletion lie outside the bucket's lock. Whatever the settings, a call between lookup and
  lock, or between inspection and deletion, takes from a bucket that is then replaced by a full one: buckets in use are
  deleted, calls are admitted before their refill moment, and the exact bound on one moment is twice the burst, plus the
  calls already left with a deleted bucket.
- An LLM rate below one per minute admits each user once and never again.
- The mail counter that `internal/gateway/email.go:78` calls a sliding window is a fixed clock hour: for every
  limit some run passes twice as many mails within one nanosecond around the full hour, and none passes more in any hour.
- The dead-node callbacks run while the manager's mutex is held, in the reverse order of discovery, although
  `internal/controlplane/nodemanager.go:246` says otherwise: deferred calls run last in, first out, and the unlock was
  deferred first.
- A subnet prefix beyond 32 bits is accepted, and then every node is given the same subnet (or none, when the prefix is
  32 bits or more longer than the base's).
- The mail server ends a line at any line feed, where section 2.3.8 of RFC 5321 has CRLF alone, so a bare line feed can
  end a message early and turn the rest of it into commands. It drops carriage returns at the end of a line, and a leading
  period only before a second one, where section 4.5.2 removes it always. These are all the differences in reading a
  message that a conforming receiver completes. It keeps the envelope after DATA and takes no recipient after a null
  reverse-path, unlike sections 4.1.1.4 and 4.5.5.
- Releasing a guest address does not make room for another, although the comment on `ReleaseNetwork` says it frees the
  allocation: a subnet serves only its first `2^(32-bits) - 2` attempts, failed ones included, and the last of them is
  given the broadcast address.
- After a crash rows still say running, and start, stop and restart refuse or fail for good until `rm`; the new
  process gives a stale row's address to another VM.
- Over exact arithmetic the tests' allowance of one point of rating drift is never needed: a game conserves the sum of
  the ratings exactly, since a change of rating never lies halfway between two integers. A participant who ties
  with the winner of a match that others lost gets neither a win nor a draw.

## Model

| member | source | states |
|---|---|---|
| TokenBucket.Budget | internal/api/ratelimit.go:57-73 | admissions of one bucket up to a time never exceed its level plus what is refilled until then, for every sequence of calls |
| TokenBucket.WindowBound | internal/api/ratelimit.go:57-73 | calls admitted by one bucket in any interval of length T never exceed burst + rate * T |
| TokenBucket.LevelIsLeastSlack | internal/api/ratelimit.go:61-70 | the clamped level equals the least of burst + T minus admissions over all windows ending at the call |
| TokenBucket.AdmitsIffBoundKept | internal/api/ratelimit.go:57-73 | a call is admitted if and only if admitting it keeps burst + T on every window that ends with it: no more permissive limiter keeps the bound |
| ApiRateLimit.NewConfig | internal/api/ratelimit.go:29-41 | the rate is a sixtieth of the positive rate per minute, or 60 per minute; the burst is the positive one, or 10; the cleanup interval is ten minutes |
| ApiRateLimit.Bucket.Take | internal/api/ratelimit.go:54-73 | the body under the bucket's lock is one admission step of the token bucket; in seconds, the time since the last call is credited up to the burst, and a token is taken exactly when a whole one is there |
| ApiRateLimit.RateLimiter.constructor | internal/api/ratelimit.go:29-47 | starts with no buckets and the defaulted settings |
| ApiRateLimit.RateLimiter.getBucket | internal/api/ratelimit.go:92-106 | the key's own bucket, or a fresh full one that is also entered in the table; other keys keep theirs |
| ApiRateLimit.RateLimiter.Allow | internal/api/ratelimit.go:51-74 | the answer and the new table: the key's bucket takes one admission step, every other key is unchanged |
| ApiRateLimit.RateLimiter.RetryAfter | internal/api/ratelimit.go:78-90 | credits no time, creates a missing bucket, and returns the truncated milliseconds until a whole token; 0 for a key without a bucket |
| ApiRateLimit.RateLimiter.Sweep | internal/api/ratelimit.go:116-127 | deletes exactly the bucket idle for more than twice the cleanup interval at the pass time |
| ApiRateLimit.Refines | internal/api/ratelimit.go:51-129 | in every run over any keys, queries and cleanups, a key is answered as one undisturbed bucket that sees only the key's own calls |
| ApiRateLimit.EvictionStaysInvisible | internal/api/ratelimit.go:110-129 | with burst <= rate * 2 * cleanup a run gets the same answers with its cleanups removed |
| ApiRateLimit.RateStaysBounded | internal/api/ratelimit.go:51-129 | with burst <= rate * 2 * cleanup, or without cleanups, admissions for one key in an interval never exceed burst + rate * T |
| ApiRateLimit.RefusesOnlyToKeepTheBound | internal/api/ratelimit.go:51-129 | a call of any run is admitted if and only if the bound stays kept on every window ending with it |
| ApiRateLimit.TwoBurstsAdmitTwice | internal/api/ratelimit.go:122-125 | a burst, a cleanup after the idle limit and a second burst admit twice the burst |
| ApiRateLimit.EvictionInvisibleIff | internal/api/ratelimit.go:110-129 | eviction is invisible in every run if and only if burst <= rate * 2 * cleanup |
| ApiRateLimit.RateBoundedIff | internal/api/ratelimit.go:51-129 | the bound burst + rate * T holds of every run if and only if burst <= rate * 2 * cleanup |
| ApiRateLimit.SettingsBound | internal/api/ratelimit.go:29-129 | in the arguments of the constructor: a positive rate per minute and a burst of at most twenty minutes' worth of calls admit for a key, in every interval of every run, at most the burst plus the rate times its minutes |
| ApiRateLimit.SettingsBoundedIff | internal/api/ratelimit.go:29-129 | with positive arguments the bound holds of every run if and only if the burst is at most twenty times the rate per minute |
| ApiRateLimit.RefusalLeavesRefused | internal/api/ratelimit.go:67-90 | a refused call leaves a bucket short of a token, and asking for Retry-After then changes nothing |
| ApiRateLimit.RefusedThenAdmitted | internal/api/ratelimit.go:51-90 | in runs of whole calls, with one token regained within the idle limit: after a refusal every call before the refill moment is refused and a call from that moment on is admitted, whatever comes between |
| ApiRateLimit.RetryHonouredIff | internal/api/ratelimit.go:76-129 | no run of whole calls admits before the refill moment if and only if one token is regained within the idle limit; `ApiRateRace.PromiseKeptIff` has the critical sections |
| ApiRateLimit.RetryAfterBrackets | internal/api/handler.go:140-146 | the truncated duration is less than a millisecond short of the refill moment, and the rounded header in seconds always reaches it and is at most a second and a half late |
| ApiRateLimit.WaitingTheHeaderSuffices | internal/api/handler.go:140-146 | under every setting, a refused client that waits the seconds of its header and calls again is admitted, whatever other keys and the cleanup do meanwhile |
| ApiRateLimit.OnlyFullDeletedIff | internal/api/ratelimit.go:108-127 | in every run of whole calls the cleanup deletes only buckets that are full again if and only if burst <= rate * 2 * cleanup; `ApiRateRace.OnlyFullEvictedIff` has the critical sections |
| ApiRateRace.OneMoreThanEvictions | internal/api/ratelimit.go:92-129 | however the critical sections interleave, from any moment on at most one bucket more is made than the cleanup evicts |
| ApiRateRace.StepPays | internal/api/ratelimit.go:51-129 | an admission is paid for by the stranded call itself or out of the bucket it is taken from, in the table or not; a new bucket brings one share |
| ApiRateRace.EveryInterleavingBounded | internal/api/ratelimit.go:51-129 | over every interleaving, a window of length T admits at most one call for each that holds an evicted bucket when it opens, one share of burst + rate * T and one more for each eviction inside it; n evictions in one window take it strictly longer than n - 1 idle limits |
| ApiRateRace.MomentBoundIff | internal/api/ratelimit.go:51-129 | for every setting and number n of calls stranded with an evicted bucket, a bound on the calls admitted in one moment holds of every interleaving if and only if it is at least twice the burst plus n |
| ApiRateRace.OneCallTooMany | internal/api/ratelimit.go:114-127 | for every setting, a call that looks its bucket up just before the cleanup deletes it makes burst + 1 calls admitted in one moment |
| ApiRateRace.LiveIsWhole | internal/api/ratelimit.go:51-129 | as long as no call takes from a condemned or evicted bucket, the critical sections admit what whole calls of the limiter admit |
| ApiRateRace.LiveBoundedIff | internal/api/ratelimit.go:51-129 | in such runs, with any calls in flight, the bound burst + rate * T always holds if and only if burst <= rate * 2 * cleanup |
| ApiRateRace.OnlyFullEvictedIff | internal/api/ratelimit.go:108-127 | between critical sections the cleanup deletes buckets in use under every setting; in runs where no call takes from a condemned or evicted bucket it deletes only full ones if and only if burst <= rate * 2 * cleanup |
| ApiRateRace.PromiseKeptIff | internal/api/ratelimit.go:51-129 | between critical sections some call before the refill moment is admitted under every setting; in runs where no call takes from a condemned or evicted bucket none is, if and only if one token is regained within the idle limit |
| LlmRateLimit.GatewayRate | internal/gateway/llm.go:79-81 | a positive configured rate is used, any other becomes 60 |
| LlmRateLimit.Capacity | internal/gateway/llm.go:286-286 | the capacity is the rate truncated towards zero |
| LlmRateLimit.RateLimiterMap.constructor | internal/gateway/llm.go:282-288 | no buckets, and a capacity that is the rate truncated |
| LlmRateLimit.RateLimiterMap.allow | internal/gateway/llm.go:291-320 | the answer and the new table; a new user is admitted unseen, a known one exactly when the level, credited with the rate per minute up to the capacity, is at least one; other users are unchanged |
| LlmRateLimit.MatchesTokenBucket | internal/gateway/llm.go:291-320 | with a capacity of at least one every user is answered as by one full bucket, like a key of the API limiter |
| LlmRateLimit.RefusesOnlyToKeepTheBound | internal/gateway/llm.go:291-320 | a call is admitted if and only if capacity + rate * T stays kept on every window ending with it |
| LlmRateLimit.RateBoundedIff | internal/gateway/llm.go:282-320 | the bound holds of every run if and only if the rate is at least one per minute |
| LlmRateLimit.BoundInMinutes | internal/gateway/llm.go:282-320 | a rate of at least one per minute admits for a user, in every interval of every run, at most the rate plus the rate times its minutes |
| LlmRateLimit.SlowRateAdmitsOnce | internal/gateway/llm.go:282-320 | below one per minute each user is admitted on the first call and on no other |
| HourlyLimit.EffectiveLimit | internal/gateway/email_send.go:71-77 | a limit of one or more is used, any other becomes the default |
| HourlyLimit.HourlyLimiter.Inbound | internal/gateway/email.go:85-105 | no counters, and the configured limit, or 100 where none is |
| HourlyLimit.HourlyLimiter.Outbound | internal/gateway/email_send.go:71-89 | no counters, and the configured limit, or 10 where none is |
| HourlyLimit.HourlyLimiter.Check | internal/gateway/email.go:496-519 | the answer and the new counters; a new hour starts a new window, other VMs are unchanged; outbound sending uses the same body |
| HourlyLimit.AdmittedIff | internal/gateway/email_send.go:220-242 | a call is admitted if and only if fewer than the limit of earlier calls by its VM fell in its clock hour |
| HourlyLimit.HourExact | internal/gateway/email.go:496-519 | in each clock hour a VM gets exactly the lesser of the limit and its number of calls |
| HourlyLimit.AnyHourAtMostTwice | internal/gateway/email_send.go:220-242 | at most twice the limit in any closed interval of one hour |
| HourlyLimit.TwiceTheLimitAtTheHour | internal/gateway/email.go:500-518 | for every limit some run admits twice the limit within a nanosecond around a full hour |
| SubnetLayout.BlockAt | internal/mesh/allocator.go:218-241 | for every index below the number of subnets no step overflows 32 bits, the subnet is aligned, inside the base, and has that index |
| SubnetLayout.IndexedBlock | internal/mesh/allocator.go:218-241 | every aligned subnet of the base has an index in range that leads back to it |
| SubnetLayout.BlocksDisjoint | internal/mesh/allocator.go:218-229 | subnets of distinct indices share no address |
| SubnetLayout.BlockInsideBase | internal/mesh/allocator.go:218-229 | every address of an indexed subnet lies in the base network |
| SubnetLayout.TilesIff | internal/mesh/allocator.go:210-229 | the subnets cover every address of the base if and only if there are not 2^32 of them |
| SubnetLayout.DistinctIff | internal/mesh/allocator.go:210-229 | of everything the constructor accepts, distinct indices give distinct subnets if and only if the prefix is at most 32 bits or there is no index |
| SubnetAllocator.FirstFree | internal/mesh/allocator.go:82-84 | the least index not taken, or the number of subnets when all are |
| SubnetLayout.Masked | internal/mesh/allocator.go:51-51 | the masked base contains the parsed address and is aligned to its prefix |
| SubnetLayout.Base | internal/mesh/allocator.go:51-56 | the base network of every parsed CIDR, IPv6 and IPv4-mapped ones included, is a 32-bit address aligned to a prefix of at most 32 bits |
| SubnetAllocator.CarrierGradeNAT | internal/mesh/allocator.go:11-16 | 100.64.0.0/10 holds exactly 16384 /24 subnets |
| SubnetAllocator.Allocator.Default | internal/mesh/allocator.go:37-46 | the default allocator is empty and has 16384 subnets of 100.64.0.0/10 |
| SubnetAllocator.Allocator.Custom | internal/mesh/allocator.go:50-68 | an error exactly when the text does not parse or the subnet prefix is not longer than the base's, otherwise an empty allocator with the masked base, IPv4, IPv4-mapped or IPv6, however long the prefix |
| SubnetAllocator.Allocator.Allocate | internal/mesh/allocator.go:72-98 | the result and both new tables: the existing subnet, the first free one, or a refusal that changes nothing |
| SubnetAllocator.AllocateReturnsEntry | internal/mesh/allocator.go:72-98 | after every run an allocation returns the node's own entry and leaves all other nodes theirs; a node that has a subnet gets the same one again, any other the first block that no node holds, and with no such block nothing changes |
| SubnetAllocator.AnswerStands | internal/mesh/allocator.go:72-124 | in every run the subnet returned to a node stays its entry for as long as the node is not released, whatever other nodes do |
| SubnetAllocator.AnswersDisjoint | internal/mesh/allocator.go:72-124 | subnets returned anywhere in a run to two nodes that still hold them share no address and lie in the base |
| SubnetAllocator.Allocator.Release | internal/mesh/allocator.go:101-124 | fails without effect for an unknown node, otherwise removes its subnet and one of its indices, in any order of the range |
| SubnetAllocator.ReleaseIsUnique | internal/mesh/allocator.go:110-117 | on consistent tables the order of the range does not matter: the node's own index is freed |
| SubnetAllocator.ReleaseDropsEntry | internal/mesh/allocator.go:101-124 | after every run a release takes the node's entry away and no other |
| SubnetAllocator.Allocator.FreeCount | internal/mesh/allocator.go:146-150 | the subtraction in 32 bits, which on consistent tables is the true number of available subnets |
| SubnetAllocator.Allocator.AllocatedCount | internal/mesh/allocator.go:153-157 | the number of taken indices in 32 bits, which on consistent tables is the number of live subnets |
| SubnetAllocator.Allocator.ExportAllocations | internal/mesh/allocator.go:170-182 | one record for each node with its subnet, none twice |
| SubnetAllocator.Allocator.ImportAllocations | internal/mesh/allocator.go:186-203 | both tables after the records in order, up to the first whose text does not parse |
| SubnetAllocator.RunKeeps | internal/mesh/allocator.go:72-124 | every run of allocations and releases keeps the two tables inverse of each other and equally large |
| SubnetAllocator.LiveSubnetsDisjoint | internal/mesh/allocator.go:72-124 | after every run live subnets lie inside the base and no address belongs to two nodes |
| SubnetAllocator.CountsAddUp | internal/mesh/allocator.go:146-157 | after every run the free and the allocated count are the true ones, add up to the number of subnets and do not underflow |
| SubnetAllocator.RefusedIffFull | internal/mesh/allocator.go:81-97 | after every run a node without a subnet is refused if and only if every index is taken |
| SubnetAllocator.HighWaterMark | internal/mesh/allocator.go:82-94 | with at most k nodes holding subnets at once, no run hands out a subnet of index k or more |
| SubnetAllocator.ExportImport | internal/mesh/allocator.go:170-203 | importing the export of any reachable allocator, in any order, into a fresh one rebuilds both tables |
| SubnetAllocator.ImportStops | internal/mesh/allocator.go:190-202 | import keeps the records before the first whose text does not parse, and succeeds if and only if there is none |
| SubnetAllocator.ImportConsistentIff | internal/mesh/allocator.go:186-203 | whatever the records, repeated nodes and unreadable ones included, the tables are consistent if and only if, among those read, the last records of the nodes are the last of the indices and are subnets of the layout |
| SubnetAllocator.SubnetsDifferIff | internal/mesh/allocator.go:50-98 | of everything the constructor accepts, different nodes hold different subnets in every run if and only if the prefix is at most 32 bits or there is nothing to allocate |
| NodeManager.TrackedNode.constructor | internal/controlplane/nodemanager.go:100-106 | a new node is healthy, just seen, and has no commands |
| NodeManager.TrackedNode.UpdateHealth | internal/controlplane/nodemanager.go:222-251 | one node's transition in a check, and whether it has just become dead |
| NodeManager.NodeManager.constructor | internal/controlplane/nodemanager.go:73-92 | no nodes, with or without a callback |
| NodeManager.NodeManager.RegisterNode | internal/controlplane/nodemanager.go:95-108 | the node is replaced by a new one, its queue lost; others are unchanged |
| NodeManager.NodeManager.RemoveNode | internal/controlplane/nodemanager.go:111-117 | the node alone is forgotten |
| NodeManager.NodeManager.ProcessHeartbeat | internal/controlplane/nodemanager.go:120-149 | an unknown node is refused, a known one becomes healthy and gets its whole queue, which is emptied; others are unchanged |
| NodeManager.NodeManager.EnqueueCommand | internal/controlplane/nodemanager.go:152-167 | refused for an unknown node, otherwise appended to that node's queue alone |
| NodeManager.NodeManager.CheckOne | internal/controlplane/nodemanager.go:221-251 | one turn of the loop changes the one node and reports a death exactly when it is new |
| NodeManager.NodeManager.CheckAll | internal/controlplane/nodemanager.go:221-252 | the loop classifies every node and finds exactly the newly dead, each once, in any order of the range |
| NodeManager.NodeManager.RunDeferred | internal/controlplane/nodemanager.go:216-260 | what was deferred runs last in, first out: every callback with the mutex held, in the reverse of the order of discovery, and the unlock after them |
| NodeManager.NodeManager.CheckTimeouts | internal/controlplane/nodemanager.go:215-260 | every node is checked; with a callback installed it fires exactly once for each newly dead node, in the reverse order of discovery and with the mutex held, and the mutex is free afterwards |
| NodeManager.CheckStoresClassification | internal/controlplane/nodemanager.go:215-253 | after every check of every run with a non-decreasing clock the stored health says how long the node has been silent: under 30 seconds, from there to 5 minutes, from there to an hour, or longer |
| NodeManager.SilenceNeverHeals | internal/controlplane/nodemanager.go:119-253 | between heartbeats the health of a node never improves, in any run |
| NodeManager.OneCallbackPerLateSilence | internal/controlplane/nodemanager.go:215-260 | over every run the callback fires exactly once per silence with a check an hour or more after the node was last seen |
| NodeManager.QueueConserved | internal/controlplane/nodemanager.go:120-167 | what heartbeats return, followed by the queue, is the old queue followed by what was enqueued, in order |
| NodeManager.CommandsConserved | internal/controlplane/nodemanager.go:94-167 | since its registration a node's received commands followed by its queue are those enqueued, none lost, doubled or reordered |
| Scheduler.Filtered | internal/scheduler/scheduler.go:232-256 | the nodes kept are exactly the given ones that pass every hard constraint |
| Scheduler.PassesIff | internal/scheduler/scheduler.go:232-256 | a node passes if and only if it is ready, healthy and not draining, the RAM and disk asked for fit beside what is used, and its trust level reaches the one asked for |
| Scheduler.Filter | internal/scheduler/scheduler.go:232-256 | the loop keeps exactly the passing nodes, in order |
| Scheduler.MaxVMs | internal/scheduler/scheduler.go:297-303 | the largest VM count among the candidates, but at least one |
| Scheduler.ScoreLocality | internal/scheduler/scheduler.go:310-326 | 1 where the user has VMs, 0.8 on a preferred node, else 0 |
| Scheduler.ScoreSpread | internal/scheduler/scheduler.go:292-307 | 0 without candidates, otherwise one minus the share of the largest VM count |
| Scheduler.ScoreNode | internal/scheduler/scheduler.go:264-275 | the weighted sum of the five scores |
| Scheduler.ScoreIsWeightedSum | internal/scheduler/scheduler.go:264-344 | the total, written out in the figures of the node: share of RAM in use up to 1, one minus the share of the largest VM count, 1, 0.8 or 0 for locality, freshness over 365 days or 0.5 when the registration is unknown, and a hundredth of the trust level, each times its weight |
| Scheduler.ScoreDirections | internal/scheduler/scheduler.go:279-344 | packing and trust grow with use and trust, spread falls with VMs, freshness falls with age to 0 at 365 days; packing and freshness stay at most 1 |
| Scheduler.OneMaxVMs | internal/scheduler/scheduler.go:297-303 | the largest VM count depends only on which candidates there are |
| Scheduler.SortDescending | internal/scheduler/scheduler.go:201-204 | a descending permutation of the scored nodes |
| Scheduler.PlaceVM | internal/scheduler/scheduler.go:169-214 | fails if and only if no node passes; otherwise returns a passing node that no passing node outscores |
| Scheduler.WorseNotPlaced | internal/scheduler/scheduler.go:169-214 | with no negative weight the node placed on is never one that another passing node with as much RAM, and with its registration known or unknown alike, matches or betters in every respect and betters in one of positive weight: more RAM in use, fewer VMs, nearer the user, registered later or trusted more |
| Scheduler.BestScoreStable | internal/scheduler/scheduler.go:169-214 | reordering, repeating or adding nodes that do not pass leaves the best score and the best nodes unchanged |
| Scheduler.VCPUsIgnored | internal/scheduler/scheduler.go:232-275 | the virtual CPUs asked for never change what is best |
| SmtpData.FirstLF | internal/gateway/email.go:250-250 | the end of a line is the first line feed |
| SmtpData.Reader.readLine | internal/gateway/email.go:249-255 | the next line without its ending, or, without a line feed, an error that consumes the rest |
| SmtpData.Reader.readBody | internal/gateway/email.go:341-358 | the data loop builds the lines up to a single period, un-stuffed and ended with CRLF, and stops after it |
| SmtpData.ReadsCleanLine | internal/gateway/email.go:249-255 | a line without LF or trailing CR, sent with CRLF, is read back and nothing after it |
| SmtpData.DataIsClean | internal/gateway/email.go:341-358 | whatever is received, no line of the message contains a line feed or ends in a carriage return |
| SmtpData.RoundTrip | internal/gateway/email.go:341-358 | dot-stuffed lines come back unchanged and the following input is untouched |
| SmtpData.RoundTripIff | internal/gateway/email.go:341-358 | transparency, section 4.5.2 of RFC 5321: they do if and only if no line contains a line feed or ends in a carriage return |
| SmtpData.ReadsLikeRfcIff | internal/gateway/email.go:249-255 | for every input that a receiver with sections 2.3.8 and 4.5.2 of RFC 5321 completes, whose lines end at CRLF alone, the server rebuilds the same message and leaves the same input if and only if no line contains a line feed, ends in a carriage return or starts with a period before something other than a period |
| SmtpData.BareLineFeedEndsMessage | internal/gateway/email.go:341-351 | a bare line feed, a period and CRLF within a message end it for the server, which takes what follows for commands, and not for that receiver |
| SmtpSession.ParsesCommandLine | internal/gateway/email.go:258-266 | a command word, a space and an argument are told apart, the word in upper case |
| SmtpSession.ParsesBareWord | internal/gateway/email.go:258-266 | a line that is one word is a command without an argument |
| SmtpSession.TrimsToCore | internal/gateway/email.go:258-266 | white space goes at both ends, and nothing else does |
| SmtpSession.CasesByAlphabet | internal/gateway/email.go:258-266 | the letters of the alphabet change case in pairs, and other characters never do |
| SmtpSession.AngleBracketsOptional | internal/gateway/email.go:422-428 | an address reads the same with and without angle brackets |
| SmtpSession.VMFromAddressIff | internal/gateway/email.go:394-416 | mail is accepted for a VM if and only if the address is something, the first @, the VM without dots, a dot and the domain, in any letter case |
| SmtpSession.Session.constructor | internal/gateway/email.go:198-203 | an empty envelope and nothing handed over |
| SmtpSession.Session.handleMAIL | internal/gateway/email.go:282-295 | a new envelope with the sender alone, or a 501 that changes nothing |
| SmtpSession.Session.handleRCPT | internal/gateway/email.go:298-330 | 503 exactly without a sender, 250 exactly for an accepted address after one, which is appended, its VM kept if the first, 550 exactly for one that names no VM, otherwise 501; nothing else changes |
| SmtpSession.AcceptedIff | internal/gateway/email.go:282-330 | in any case of letters, MAIL is accepted if and only if its argument starts with FROM:, and RCPT if and only if there is a sender, its argument starts with TO: and the address after that names a VM of the domain |
| SmtpSession.Session.handleDATA | internal/gateway/email.go:333-383 | without recipients nothing is read; otherwise one message with the present envelope is handed over, and the envelope stays |
| SmtpSession.Session.handleRSET | internal/gateway/email.go:385-390 | the envelope is emptied |
| SmtpSession.Session.turn | internal/gateway/email.go:208-241 | one turn consumes input and hands over what the conversation says it should |
| SmtpSession.Session.handleConn | internal/gateway/email.go:192-242 | for every input the connection hands over exactly the messages of its conversation |
| SmtpSession.MailStartsEnvelope | internal/gateway/email.go:282-295 | from the bytes MAIL FROM:<sender>, in any case of letters, on, the conversation goes on with that sender and no recipients |
| SmtpSession.RcptAddsRecipient | internal/gateway/email.go:298-330 | from the bytes RCPT TO:<address> on it goes on with one recipient more if there is a sender and the address names a VM, the VM being that of the first, and otherwise as it was |
| SmtpSession.DataDelivers | internal/gateway/email.go:333-361 | DATA with recipients hands over the message that follows, with the present envelope; without any nothing is handed over or read |
| SmtpSession.TransactionDelivers | internal/gateway/email.go:192-383 | from bytes to mail: a sender, any number of addresses and any clean message, in any case of the command words and after anything else, hand over exactly one message, with that sender, exactly the addresses that name a VM and the VM of the first, if the sender is not empty and some address names a VM; otherwise none |
| SmtpSession.OneMessageDelivered | internal/gateway/email.go:192-383 | one sender, one address of the domain and one message in a new connection are one delivery of that message to that VM |
| SmtpSession.OtherCommands | internal/gateway/email.go:220-240 | RSET forgets the envelope, QUIT ends the conversation, and every other word that is none of the five commands changes nothing |
| SmtpSession.ConversationFaithful | internal/gateway/email.go:192-390 | for every script of clean command lines and messages the bytes a client sends become exactly the messages it means, with their envelopes |
| SmtpSession.EnvelopeSinceMail | internal/gateway/email.go:282-390 | since the last accepted MAIL the envelope is its sender and, unless that is empty, the recipients accepted since; messages in between change nothing |
| SmtpSession.DeliveriesConsistent | internal/gateway/email.go:192-390 | for every input each message handed over has a sender, accepted recipients and the VM of the first of them |
| SmtpSession.NullSenderDeliversNothing | internal/gateway/email.go:298-302 | with no sender nothing is handed over until the next MAIL |
| Maildir.StepReserves | internal/gateway/email.go:432-483 | every step of every handler, the hourly limit included, keeps unread files plus handlers past the unread check within MaxUnread + n - 1 |
| Maildir.NewStaysBounded | internal/gateway/email.go:432-483 | in every interleaving of n handlers new holds at most MaxUnread + n - 1 files |
| Maildir.BoundReached | internal/gateway/email.go:432-483 | for every MaxUnread, number n of handlers and hourly limit, some interleaving fills new to MaxUnread + n - 1: one message arrives in each of n hours and none is renamed before all are counted |
| Maildir.NewWithinIff | internal/gateway/email.go:432-483 | a bound holds of every interleaving if and only if it is at least MaxUnread + n - 1, whatever the hourly limit, as file operations take any time; so MaxUnread itself only for one handler |
| Maildir.DeliveredComplete | internal/gateway/email.go:461-482 | in every interleaving the messages reported delivered are those in new and those taken out of it, and every file in new is a complete message |
| Maildir.TmpHoldsIff | internal/gateway/email.go:461-482 | in every interleaving tmp holds exactly the files being written and those whose write failed, which nothing removes |
| Maildir.ArrivalAdmittedIff | internal/gateway/email.go:432-436 | in every interleaving a message that arrives passes the hourly limit if and only if fewer than the limit arrived before it in its clock hour |
| VmNetwork.NetworkManager.constructor | internal/vm/network.go:46-69 | for every parsed CIDR no leases, and the counter at the address after the gateway |
| VmNetwork.NetworkManager.Create | internal/vm/network.go:46-69 | an error exactly when the text does not parse; an IPv6 subnet is accepted |
| VmNetwork.NetworkManager.AllocateNetwork | internal/vm/network.go:118-183 | the counter moves on even on failure; a lease exactly when the address is in the subnet and all three commands succeed |
| VmNetwork.NetworkManager.ReleaseNetwork | internal/vm/network.go:186-199 | the lease is forgotten and the counter stays |
| VmNetwork.GuestAddressesDistinct | internal/vm/network.go:118-199 | with fewer than 2^32 attempts no two VMs ever hold the same address, in any run |
| VmNetwork.FirstGuestIs | internal/vm/network.go:52-58 | the first guest address is the second after the subnet's, without overflow, when the subnet's is a multiple of four |
| VmNetwork.AddressOfAttempt | internal/vm/network.go:52-133 | attempt k reaches an address of the subnet if and only if k < 2^(32-bits) - 2 |
| VmNetwork.OnlyFirstAttemptsServed | internal/vm/network.go:118-199 | in any run attempt k is served if and only if its commands succeed and k < 2^(32-bits) - 2, whatever was released, and then it gets the address k after the first |
| VmNetwork.BroadcastServedIff | internal/vm/network.go:118-133 | in any run a VM is given the broadcast address of the subnet if and only if its attempt is the last one that is served |
| VmManager.Database.CreateVM | internal/db/queries.go:155-177 | a new id and a stopped row without an address |
| VmManager.Database.UpdateVMStatus | internal/db/queries.go:237-246 | status and address of an existing row, nothing for a missing one |
| VmManager.Database.DeleteVM | internal/db/queries.go:249-254 | the one row is gone |
| VmManager.Manager.constructor | internal/vm/manager.go:119-128 | a manager starts with nothing running, whatever the rows say |
| VmManager.Manager.BootVM | internal/vm/manager.go:378-443 | the steps from the bridge on, with the undoing of every failure exit; no error exactly when all succeed |
| VmManager.Manager.CreateAndStart | internal/vm/manager.go:346-453 | rows, running map and leases after every combination of failing steps; no error exactly when all succeed |
| VmManager.Manager.Start | internal/vm/manager.go:457-546 | the same for an existing disk; a missing disk changes nothing and is an error |
| VmManager.Manager.Stop | internal/vm/manager.go:549-581 | fails without effect unless the VM is in the running map, otherwise updates all three tables |
| VmManager.Manager.Destroy | internal/vm/manager.go:584-616 | stopped if running, then its row deleted |
| VmManager.Manager.ShutdownAll | internal/vm/manager.go:638-651 | every running VM is stopped, in any order |
| VmManager.cmdNew | internal/ssh/commands.go:174-262 | guards and calls: a refused request changes nothing, an allowed one creates a row and starts it |
| VmManager.cmdStop | internal/ssh/commands.go:378-417 | nothing unless the row says running |
| VmManager.cmdRestart | internal/ssh/commands.go:421-468 | stopped first if the row says running, given up if that fails, then started |
| VmManager.cmdStart | internal/ssh/commands.go:472-510 | nothing if the row says running |
| VmManager.cmdCp | internal/ssh/commands.go:514-596 | a stopped copy, or no row when cloning fails; its id is spent either way |
| VmManager.cmdRm | internal/ssh/commands.go:600-647 | nothing unless confirmed, otherwise destroyed |
| VmManager.NewCommand | internal/ssh/commands.go:174-262 | a permitted request makes a new row, which runs with the next address, in all three tables, if and only if every step succeeds, and is otherwise in error; other VMs are unchanged, and a refused request changes nothing |
| VmManager.StopCommand | internal/ssh/commands.go:378-417 | a running VM is afterwards stopped without an address, in neither the running map nor the leases, and other VMs are unchanged; one that does not run is left alone |
| VmManager.StartCommand | internal/ssh/commands.go:472-510 | a VM whose row does not say running and whose disk exists runs with the next address, in all three tables, if and only if every step succeeds, and is otherwise in error; other VMs are unchanged; otherwise nothing happens |
| VmManager.RestartCommand | internal/ssh/commands.go:421-468 | the same for a VM that runs or does not say so, with a new address; with its disk missing it ends stopped, and one whose row alone says running is left as it is |
| VmManager.CopyCommand | internal/ssh/commands.go:514-596 | a copy is a new stopped row without an address, in no other table, exactly when cloning succeeds; everything else is unchanged but for the id that is spent |
| VmManager.RemoveCommand | internal/ssh/commands.go:600-647 | a confirmed removal takes the VM out of all three tables, and other VMs are unchanged |
| VmManager.NewServer | internal/vm/manager.go:638-651 | a new server runs nothing, holds no leases and counts addresses from the first; a graceful shutdown has stopped exactly what ran, a crash has left every row as it was |
| VmManager.CreateAllOrNothing | internal/vm/manager.go:346-453 | creation boots the VM with the next address if and only if every step succeeds; otherwise the row is in error without an address and the running map and leases are as before |
| VmManager.StartAllOrNothing | internal/vm/manager.go:457-546 | the same for starting, with a missing disk leaving everything alone |
| VmManager.StepLinks | internal/ssh/commands.go:174-648 | every command keeps running map, leases and rows linked, and states exactly which rows are stale afterwards |
| VmManager.TablesAgree | internal/ssh/commands.go:174-648 | in every run of new, start, stop, restart, cp, rm and graceful server restarts, with any step failing, a VM is in the running map iff its row says running iff it holds a lease, all with one address |
| VmManager.AgreeIff | internal/vm/manager.go:549-616 | linked tables agree if and only if no row is stale |
| VmManager.AgreeAfterCrashIff | internal/vm/manager.go:549-557 | after a crash at the end of any run the tables agree if and only if no VM was running |
| VmManager.StaleIff | internal/ssh/commands.go:174-648 | in every run a row is stale if and only if it said running at some crash and its VM has not been removed since: start, stop and restart never repair it |
| VmManager.TablesAgreeIff | internal/ssh/commands.go:174-648 | after every run, crashes included, the tables agree if and only if every VM that said running at a crash has been removed since |
| VmManager.ShutdownStopsAll | internal/vm/manager.go:638-651 | after every run without a crash a graceful shutdown leaves nothing running in any table |
| VmManager.StepCounts | internal/vm/network.go:118-133 | one command makes at most one attempt at an address |
| VmManager.AddressNamesOneVM | internal/db/queries.go:222-234 | without a crash and with fewer than 2^32 commands at most one row of any status carries a given address, so the lookup by address is unambiguous |
| VmManager.CrashReusesAddress | internal/db/queries.go:222-234 | after a crash two rows can carry the same address |
| EloRating.ExpectationsShareAPoint | internal/ssh/arena.go:483-485 | the two expected scores sum to one |
| EloRating.RoundingDriftIff | internal/ssh/arena.go:487-491 | rounding two opposite changes keeps their sum unless the change lies halfway and both results have the same sign; then it is out by exactly one |
| EloRating.NoOddRatio | internal/ssh/arena.go:484-485 | no power 10^(d/400) with d > 0 is a ratio of odd numbers |
| EloRating.NeverHalf | internal/ssh/arena.go:484-491 | for every pair of ratings and a win, loss or draw the change never lies halfway between integers |
| EloRating.ExchangeConserves | internal/ssh/arena.go:482-492 | for all ratings and every result the sum of the two ratings is conserved exactly |
| EloRating.NewRatingsNearest | internal/ssh/arena.go:482-492 | after every result both new ratings are the integers nearest to the rule: 32 times the result less its expectation, one over one plus ten to the opponent's lead over 400 |
| EloRating.WinTakes | internal/ssh/arena.go:482-492 | a win moves one amount between 0 and 32 from the loser to the winner |
| EloRating.GainShrinksWithLead | internal/ssh/arena.go:482-492 | the further ahead the winner was, the less the win is worth |
| EloRating.GainAtLandmarks | internal/ssh/arena.go:482-492 | 16 points between equals, 3 for a favourite 400 ahead, 29 for one 400 behind |
| EloRating.GainVanishesIff | internal/ssh/arena.go:482-492 | a win is worth nothing if and only if the winner led by 720 points or more |
| ArenaElo.EloTable.GetArenaELO | internal/db/queries.go:1322-1338 | the stored record, or 1200 with no games |
| ArenaElo.EloTable.UpdateArenaELO | internal/db/queries.go:1341-1356 | the one record is inserted or replaced |
| ArenaElo.UpdateELOAfterMatch | internal/ssh/arena.go:496-574 | the table after a match, for every combination of failing reads and writes; an error exactly when there is a winner that cannot be read or written |
| ArenaElo.SameScores | internal/ssh/arena.go:513-520 | an all-round draw exactly when every score is the first one's |
| ArenaElo.BumpDraws | internal/ssh/arena.go:522-536 | the draw loop over all participants |
| ArenaElo.BeatLosers | internal/ssh/arena.go:544-561 | the loop over the losers, with the winner's running rating |
| ArenaElo.LoserGives | internal/ssh/arena.go:554-560 | what the winner's running rating gains leaves the loser's record, if that is written |
| ArenaElo.MatchDrift | internal/ssh/arena.go:496-574 | with any reads and writes failing, the sum of all ratings changes by exactly the points of which only one side was written |
| ArenaElo.MatchConserves | internal/ssh/arena.go:496-574 | with every read and write succeeding a match conserves the sum of ratings exactly |
| ArenaElo.AverageStays1200 | internal/ssh/arena.go:496-574 | over every run of matches from an empty table the average rating of any roster that includes all players is 1200 |
| ArenaElo.WinnerOutcome | internal/ssh/arena.go:539-566 | the first of the ranking gets one win and 0 to 32 points for each participant beaten |
| ArenaElo.MatchRatings | internal/ssh/arena.go:539-566 | the exact rating of each participant after a decided match: each strictly lower scorer that is read and written pays what a win is worth against the winner's rating so far, and the winner, when written, gets all that the losers read were worth |
| ArenaElo.LoserRecord | internal/ssh/arena.go:545-558 | each strictly lower scorer gives what a win against the winner's rating so far is worth |
| ArenaElo.LoserOutcome | internal/ssh/arena.go:544-561 | strictly lower scorers lose 0 to 32 points and get one loss; those who tie with the winner are left alone |
| ArenaElo.DrawOutcome | internal/ssh/arena.go:522-536 | where everyone in a match of two or more scored the same, each participant gets one draw exactly when the record can be read and written, and nothing else of any record changes |
| ArenaElo.NoOutcome | internal/ssh/arena.go:496-542 | a match of fewer than two, or a decided one whose winner cannot be read, changes no record |
| ArenaElo.BystandersUntouched | internal/ssh/arena.go:496-574 | nobody outside the match is touched |
| ArenaElo.NothingMovedIff | internal/ssh/arena.go:545-561 | the losers whose write failed keep no points, and the others give none, if and only if each of them was 720 points or more behind |
| ArenaElo.MatchConservesIff | internal/ssh/arena.go:496-574 | a decided match never loses points when the winner is written and never creates any when not, and conserves the sum of all ratings if and only if every loser whose write went the other way was 720 or more behind |

## Left out

- ApiRateLimit.RateLimiter.Allow: is one atomic step, as is the cleanup's visit to one key; their interleaving is the subject of `ApiRateRace`, for one key and without Retry-After queries. `NodeManager` sets its mutex only where the order of deferred calls matters.
- ApiRateLimit.RateLimiter.RetryAfter: does not model the overflow of a Duration, which takes rates below about one call in 292 years.
- Rates, tokens, scores and ratings are reals; the rounding of float64 is not modelled. `RoundingDriftIff` bounds what a halfway change would cost.
- Wall clocks that step back: `UTC()` drops the monotonic reading in the node manager, and the hourly counters compare wall times; runs assume a clock that does not go back.
- `EloRating`: the power function is any function with the laws of 10^(d/400); overflow of int is not modelled.
- SubnetAllocator.Allocator.Custom: takes the parsed CIDR, not its text. Imported subnets are IPv4 networks; the address of an IPv6 one would count as 0, whose index is the wrapped distance from the base.
- GetAllocation and ListAllocations, the snapshots GetNode, ListNodes and ListHealthyNodes, and the stored status and capabilities of a node: reads only.
- NodeManager.NodeManager.CheckTimeouts: lists the ids in the order the callbacks run; a callback that calls the manager back would deadlock and is not modelled.
- Scheduler.SortDescending: stands for any descending reordering, which is all `sort.Slice` promises; 64-bit overflow of RAM and disk sums, the default weights and the call to the node provider are not modelled, and one clock reading serves all candidates.
- SmtpSession.TrimSpace: ASCII letters and white space only; Go also folds and trims other Unicode characters. The HELO name, greeting, replies of DATA and their texts, deadlines and telemetry are not modelled.
- SmtpSession.Session.handleDATA: hands the message over; whether delivery succeeds is the subject of `HourlyLimit` and `Maildir`.
- Maildir: a failed removal of a temporary file, a colliding random file name, the envelope headers put before the body and directories inside new are not modelled.
- VmNetwork.OnlyFirstAttemptsServed: requires a prefix of at most 30 bits, so that the address after the gateway lies in the subnet, and fewer than 2^32 - 2 attempts, before the counter comes round.
- VmManager: database reads and writes succeed; commands run one after the other; nftables rules, disks, proxy routes, metadata, names, owners and quotas are outside the model (a refused request is an argument of `cmdNew` and `cmdCp`), as is a server without a VM manager.
- ArenaElo.UpdateELOAfterMatch: takes the participants as the query lists them, highest score first and each user once; creating and joining matches is not modelled.
- HTTP handlers, the SSH terminal, Caddy, the tutorial, the admin pages, cryptography, image pulls, Firecracker and SQL text are not modelled.
