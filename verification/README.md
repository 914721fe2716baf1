# Verification of libshardcache

A Dafny model of the parts of libshardcache whose correctness is least visible in the code, with proofs over all inputs and all runs. `dafny verify dfyconfig.toml` checks the project.

- **ARC cache** (`ArcList`, `ArcModel`, `ArcInvariant`, `ArcBalance`, `ArcRuns`, `ArcLaws`, `Arc`). `ArcModel` has the critical sections of the cache as functions on a value: four lists, the hash, sizes, reference counts, the target `p`, the capacity `c` and the balance counter. `ArcBalance` has the two loops of `arc_balance`. `ArcRuns` interleaves the critical sections in any order, a fetch being a begin step and a finish step with anything in between; `ArcLaws` says what each of them does and that it does nothing else. `ArcList` and `Arc` are the cache in memory, with real links, counters and objects; each method is proved against the function on values.
- **Key-based Egalitarian Paxos** (`KepaxosModel`, `KepaxosReplica`, `KepaxosRuns`, `KepaxosRules`, `KepaxosBroken`, `KepaxosExact`, `KepaxosNode`, `KepaxosCodec`). A replica and its handlers as functions, what each handler keeps, runs of a group of replicas over a network that delays, repeats, redirects and loses messages, exactly what the assumptions on callback and recovery are needed for, exactly what each message does, the context with command objects updated in place, and the message format.
- **Cache protocol** (`Bytes`, `Messaging`, `MessagingSound`, `MessagingIO`, `AsyncModel`, `AsyncFragments`, `AsyncSound`, `AsyncReader`, `Chunker`). Building and reading messages, what exactly is accepted, the incremental reader, and the streaming of values to version 1 clients.
- **Fetch fan-out** (`FanOut`, `CachedObject`). One object being fetched and the clients that listen to it, as a state machine and as an object with a 32-byte inline buffer.
- **Placement** (`ConsistentHash`, `Migration`). The ring of the Python client and the migration pass.

Assumptions. A critical section of `arc.c` with its unlocked guard is one step; entering a new object in the hash and locking it is one step; a caller names only objects it holds, and the fetcher keeps its handle until the fetch ends. The hash table is an atomic map, a reference count starts at 1. `cos`, the sizes of values and byte sums are unbounded. In kepaxos there are at most 256 replicas, as the index is a byte; a response handler and the commit it makes are one step, `ATOMIC_SET_IF` stores only over a smaller value, ballots and sequence numbers are unbounded, runs start from fresh contexts and empty logs. Only what is said about the log, and about the result of a command, rests on two rules, asked of one replica and one key: the commit callback fails for an entry without a command type, as `src/shardcache_replica.c:337-345` does for types it does not know, and recovery of a key does not overtake a pending local command on it; runs of the group show that each is needed, and the exact condition is given. Ballots, entries, votes and the short path need no rule. A short field of a message arrives whole, record data in any pieces. The callback of the asynchronous reader returns 0. The fetch of an object that completed empty is not started again. The local storage changes only by the migration pass while it runs.

Where the code and its comments disagree the code is followed: the inline buffer of an object has 32 bytes, not 256; `read_message` reports one record too many when it stops at a separator without a buffer left; a ring of one shard owns every key also during a migration.

## Model

| member | source | states |
|---|---|---|
| `ArcList.ArcState.constructor` | src/arc.c:91-95 | an initialised list is a ring of its head alone |
| `ArcList.ArcState.Insert` | src/arc.c:110-117 | four pointer writes leave a well-formed ring with the object first |
| `ArcList.ArcState.Splice` | src/arc.c:119-124 | the neighbours are joined and every other joint of the ring is as before |
| `ArcList.ArcState.Prepend` | src/arc.c:135-139 | the object is first, and all four rings stay well formed and share no link |
| `ArcList.ArcState.Remove` | src/arc.c:126-133 | the content without the object, all four rings well formed |
| `ArcList.ArcState.MoveToHead` | src/arc.c:141-151 | the object first and the rest in order, all four rings well formed |
| `ArcList.ArcState.Raise` | src/arc.c:252-259 | the short path gives the same content whether or not the object is first already |
| `ArcList.ArcState.Drop` | src/arc.c:282-285 | the object leaves, with its bytes and its item off the counters and no list in its state |
| `ArcList.ArcState.Add` | src/arc.c:293-296 | the object is first, counted, and its state names the list |
| `ArcList.ArcState.Lru` | src/arc.c:154-159 | on a list that is not empty, the entry behind the head is the last object |
| `ArcInvariant.UnhashSound` | src/arc.c:288-290 | deleting an object from the hash and releasing that reference keeps every count right |
| `ArcBalance.Spill` | src/arc.c:170-181 | the first loop ends (fewer objects on mru and mfu each turn), never takes the tail of an empty list, and keeps lists, hash and counts |
| `ArcBalance.Trim` | src/arc.c:184-194 | the same for the loop over the ghost lists |
| `ArcBalance.SpillResult` | src/arc.c:170-181 | the loop moves tails only, in order, first those of mru, then, once mru is within `p`, those of mfu; each list is cut only above its share and no further than the bytes of both demand; if `p <= c` it ends with mru and mfu within `c`, so its `break` is not reached, and otherwise it may also end with each within its share |
| `ArcBalance.TrimResult` | src/arc.c:184-194 | the loop drops tails only, first those of mfug and then those of mrug, ends in the same way for the ghost lists, and exactly the dropped objects leave the hash with one reference less |
| `ArcBalance.BalanceResult` | src/arc.c:163-198 | the whole of `arc_balance`, also with `p` above `c`: which lists are cut, in which order and how far, `p` and `c` unchanged, each list a prefix of what it was followed by its ghosts, and exactly the forgotten objects out of the hash |
| `ArcBalance.BalancedOnce` | src/arc.c:163-198 | that description has one outcome only, lists and books |
| `ArcBalance.OverTarget` | src/arc.c:170-181 | while `p` is above `c`, where `c - p` wraps, balancing leaves everything on mfu |
| `ArcRuns.AdaptBound` | src/arc.c:264-280 | the target stays within the capacity, rises on a hit on mrug and falls on a hit on mfug as far as there is room |
| `ArcRuns.TouchKeeps` | src/arc.c:250-286 | a hit, also on a ghost, conserves the bytes of the four lists, changes no count, starts no fetch, and so keeps the invariant without asking for balancing |
| `ArcRuns.ShiftKeeps` | src/arc.c:250-346 | moving a listed object to any list keeps the invariant |
| `ArcRuns.DropKeeps` | src/arc.c:288-290 | moving an object to no list keeps the invariant |
| `ArcRuns.DropForgets` | src/arc.c:250-290 | an object that is not locked is on no list and not in the hash after a move to no list, and any other object is where it was |
| `ArcRuns.DropsWhole` | src/arc.c:453-461 | so it is after `arc_drop_resource`, for all other objects at once |
| `ArcRuns.CreateKeeps` | src/arc.c:539-563 | a miss that enters the hash and starts its fetch keeps the invariant |
| `ArcRuns.DiscardKeeps` | src/arc.c:555-560 | the object of a lost race is released twice and evicted once |
| `ArcRuns.BeginKeeps` | src/arc.c:297-304 | locking a held object that is on no list for its fetch keeps the invariant |
| `ArcRuns.FinishKeeps` | src/arc.c:306-337 | the end of a fetch, kept or not, keeps the invariant whatever happened meanwhile |
| `ArcRuns.FinishHeld` | src/arc.c:306-337 | the fetcher still holds the object when the fetch is over |
| `ArcRuns.ReleaseKeeps` | src/arc.c:474-479 | a release keeps the counts, and runs the evict callback exactly at zero |
| `ArcRuns.RetainKeeps` | src/arc.c:482-488 | a retain of a live object keeps the counts |
| `ArcRuns.ResizeKeeps` | src/arc.c:200-215 | a new size keeps the invariant, asking for balancing |
| `ArcRuns.LoadKeeps` | src/arc.c:715-762 | a loaded object is in the hash, on no list, with one reference |
| `ArcRuns.BalanceKeeps` | src/arc.c:163-198 | balancing keeps the invariant, leaves nothing pending, and brings the bytes within the bound from any state with `p <= c` in which it is pending |
| `ArcRuns.BalanceHeld` | src/arc.c:163-198 | balancing takes no handle away |
| `ArcRuns.StepKeeps` | src/arc.c:91-762 | every critical section keeps the representation invariant, and the bounds unless it sets a size without room |
| `ArcRuns.Exec` | src/arc.c:91-762 | every run of critical sections in any order, with any new sizes, keeps the representation invariant |
| `ArcRuns.EmptyInv` | src/arc.c:379-408 | a new cache satisfies the invariant and the bounds; it is empty, with half the size as capacity and a quarter of it as target |
| `ArcRuns.RunBound` | src/arc.c:163-198 | from any state within the bounds, as long as new sizes have room: whenever no balancing is pending, the four lists hold at most `2c` bytes and `p <= c` |
| `ArcRuns.RunConfiguredBound` | src/arc.c:390-391 | without a new size that is at most the size the cache was made with |
| `ArcRuns.HeldThrough` | src/arc.c:474-488 | a handle stays good in every run that releases its object only while there is another one |
| `ArcRuns.LookupEndsBounded` | src/arc.c:514-578 | the sections of a lookup that found its object, or made it, with any sections of other threads between them that leave its handle alone: the handle it returns is still good, nothing is pending, and the bytes are within the bound if they were |
| `ArcRuns.SizeExact` | src/arc.c:440-444 | a new size keeps the bounds exactly if it is not below `p` and, unless balancing is pending, half the bytes fit; one that is not smaller always does |
| `ArcRuns.ShrinkStays` | src/arc.c:440-444 | a run in which a size below the target is set and balancing does not reach it |
| `ArcRuns.RunRefs` | src/arc.c:288-322 | in every reachable state, whatever sizes were set, a count is 1 for the hash plus the handles out, the evict callback has run exactly if that is zero, and a listed object is alive, hashed and not locked |
| `ArcRuns.EvictedOnce` | src/arc.c:365-376 | once the last reference is gone no step touches the object, so its evict callback runs once in the whole run |
| `ArcLaws.TouchExactly` | src/arc.c:244-296 | a hit on a listed object puts it first on mfu, keeps the order of all others on their lists, moves the target as its list says and changes nothing else; a hit on any other object changes nothing |
| `ArcLaws.RaisedOnce` | src/arc.c:282-296 | that leaves one outcome for the lists only |
| `ArcLaws.AdaptAmount` | src/arc.c:264-280 | a hit on a ghost list moves the target by how many times the bytes of that list fit into the other one, at least by 1, up to the capacity or down to 0 |
| `ArcLaws.DropExactly` | src/arc.c:282-290 | a drop of an object that is not locked leaves the order of the others, the target and every other object, and the references of its handles |
| `ArcLaws.CreateExactly` | src/arc.c:539-563 | a miss makes an object of 104 bytes, the object of the user and a key above 32 bytes, in the hash, with two references, locked for its fetch |
| `ArcLaws.DiscardExactly` | src/arc.c:555-560 | the object of a lost race has no reference left and its key stays with the other one |
| `ArcLaws.LoadExactly` | src/arc.c:715-762 | a loaded object has the same bytes and one reference |
| `ArcLaws.StartExactly` | src/arc.c:297-304 | moving an object that is on no list to mru locks it for its fetch and changes nothing else |
| `ArcLaws.KeptExactly` | src/arc.c:324-340 | a fetched value of `n` bytes below the capacity leaves its object first on mru, unlocked, with `n` bytes more than it was made with and balancing pending; nothing else changes |
| `ArcLaws.UnkeptExactly` | src/arc.c:306-322 | any other end of a fetch leaves it on no list, out of the hash and with the references of its handles |
| `ArcLaws.ResizeExactly` | src/arc.c:200-215 | a new size is recorded for an object on mru or mfu only; balancing is pending in any case |
| `ArcLaws.HandlesConserved` | src/arc.c:474-488 | in every run the handles of an object are those given out less those released: no other critical section gives or takes one |
| `Arc.Arc.constructor` | src/arc.c:379-408 | a new cache in memory is the empty one |
| `Arc.Arc.Adapt` | src/arc.c:264-280 | the divisions on the counters compute the new target |
| `Arc.Arc.Transfer` | src/arc.c:282-296 | off one list and onto another in memory |
| `Arc.Arc.ToHead` | src/arc.c:252-259 | the short path in memory |
| `Arc.Arc.Unhash` | src/arc.c:288-290 | `ht_delete_if_equals` and the release of the reference of the hash |
| `Arc.Arc.ReleaseRef` | src/arc.c:365-376 | the callback at zero finds an object that is on no list |
| `Arc.Arc.Move` | src/arc.c:219-346 | `arc_move` in memory is the function on values, and a fetch starts exactly for an unlocked object without a list that goes to mru |
| `Arc.Arc.SpillOver` | src/arc.c:170-181 | the first loop in memory terminates and is the function on values |
| `Arc.Arc.TrimGhosts` | src/arc.c:184-194 | the second loop likewise |
| `Arc.Arc.Balance` | src/arc.c:163-198 | `arc_balance` in memory, also with `p` above `c`; from within the bounds it ends with at most `2c` bytes |
| `Arc.Arc.Finish` | src/arc.c:306-337 | the end of a fetch in memory |
| `Arc.Arc.UpdateSize` | src/arc.c:200-215 | `arc_update_resource_size` in memory |
| `Arc.Arc.Acquire` | src/arc.c:517-520 | the atomic lookup returns the object of the key, retained, or nothing |
| `Arc.Arc.Retain` | src/arc.c:482-488 | `arc_retain_resource` in memory |
| `Arc.Arc.Release` | src/arc.c:474-479 | `arc_release_resource` in memory |
| `Arc.Arc.Drop` | src/arc.c:453-461 | `arc_drop_resource` is a drop step and a release step; an object that is not being fetched leaves its list and the hash, and no other object moves |
| `Arc.Arc.Remove` | src/arc.c:463-471 | `arc_remove` is an acquire, a drop and a release, or nothing; the object of the key, unless it is being fetched, leaves its list and the hash, and no other object moves |
| `Arc.Arc.Miss` | src/arc.c:539-563 | the miss path up to its fetch, both outcomes of the race |
| `Arc.Arc.Hit` | src/arc.c:521-527 | the hit path never fetches, so its failure return is not reached; it ends within the bound |
| `Arc.Arc.Complete` | src/arc.c:561-577 | from the end of a fetch: exactly the finish, then a release for a missing value and balancing otherwise |
| `Arc.Arc.Lookup` | src/arc.c:514-578 | exactly which critical sections a lookup runs: the acquisition, on a hit the move to mfu and balancing unless the mode is not strict and the object is on mfu, on a miss the new object, the end of its fetch, and balancing or the release; the handle, and in strict mode the bound |
| `Arc.Arc.Load` | src/arc.c:715-762 | a loaded object enters the hash and no list |
| `Arc.Arc.SetCapacity` | src/arc.c:440-444 | any size; the bounds hold afterwards exactly if it has room |
| `Arc.Arc.SetMode` | src/arc.c:816-820 | so does a new mode |
| `KepaxosReplica.UpdatedBallot` | src/kepaxos.c:165-179 | after a message the ballot is greater than the one received and carries the index of the replica |
| `KepaxosReplica.RunCommandKeeps` | src/kepaxos.c:352-396 | a new command, also one that replaces another, keeps the invariant and moves the entry of the key forward |
| `KepaxosReplica.PreAcceptKeeps` | src/kepaxos.c:573-631 | a pre-accept keeps it; no entry and no ballot goes back |
| `KepaxosReplica.PreAcceptResponseKeeps` | src/kepaxos.c:633-698 | so does a pre-accept response, through the vote, the short path and the long path |
| `KepaxosReplica.AcceptKeeps` | src/kepaxos.c:700-749 | so does an accept |
| `KepaxosReplica.AcceptResponseKeeps` | src/kepaxos.c:751-839 | so does an accept response, through retry, vote, commit and new round |
| `KepaxosReplica.VotedTally` | src/kepaxos.c:647-661 | `max_seq` stays the maximum of the votes |
| `KepaxosReplica.CommitKeeps` | src/kepaxos.c:469-482 | so does the unchecked log write of a leader, of any command |
| `KepaxosReplica.LoggedKeeps` | src/kepaxos_log.c:181-298 | so does any log write, with the recorded maximum ballot |
| `KepaxosReplica.CommitMessageKeeps` | src/kepaxos.c:841-879 | a received commit keeps the invariant |
| `KepaxosReplica.ReceiveKeeps` | src/kepaxos.c:881-938 | so does every message, of any kind and any content, whatever the callback returns; the ballot then exceeds the one received |
| `KepaxosReplica.RecoveredKeeps` | src/kepaxos.c:940-952 | so does every recovery |
| `KepaxosReplica.ReceiveSteady` | src/kepaxos.c:469-482 | no message lowers the log of a key whose typed entry is not behind it, or puts that entry behind, if the callback follows its rule for the key of the message |
| `KepaxosRuns.ActAnswers` | src/kepaxos.c:574-631 | a pre-accept is answered with a number not below its own or the logged one of the voter, an accept with one not below its own |
| `KepaxosRuns.ActSends` | src/kepaxos.c:329-350 | what a replica sends carries its index, and a proposal its current ballot |
| `KepaxosRuns.ActVotes` | src/kepaxos.c:647-652 | a vote in a table is an old one or the one just delivered |
| `KepaxosRuns.NextKeeps` | src/kepaxos.c:352-952 | every step of the group, with or without the rules, keeps the invariant of all replicas and of all sent messages |
| `KepaxosRuns.RunInv` | src/kepaxos.c:352-952 | the invariant holds at every moment of every run |
| `KepaxosRuns.RunInStep` | src/kepaxos.c:352-952 | as long as a replica follows the rules for a key, its typed entry is not behind its log |
| `KepaxosRuns.BallotNeverDecreases` | src/kepaxos.c:165-179 | in every run the ballot of a replica never decreases |
| `KepaxosRuns.LogNeverDecreases` | src/kepaxos.c:469-482 | in every run the logged number of a key never decreases as long as its replica follows the rules for that key |
| `KepaxosRuns.EntryNeverDecreases` | src/kepaxos.c:353-396 | while a key stays in a table its ballot and its number never decrease |
| `KepaxosRuns.BallotsDiffer` | src/kepaxos.c:16-20 | replicas with different indexes never propose under the same ballot |
| `KepaxosRuns.BallotExceedsReceived` | src/kepaxos.c:165-179 | from the moment a message is delivered the ballot of the replica exceeds the one received, for the rest of the run |
| `KepaxosRuns.RecoveryAsksPeer` | src/kepaxos.c:614-618 | in every run the recover callback is given another replica of the group, whose index is in range |
| `KepaxosRuns.ResponseCast` | src/kepaxos.c:908-938 | every response in flight is what its sender answered at a step of the run |
| `KepaxosRuns.CommitLogs` | src/kepaxos.c:469-482 | a commit logs and announces the number and ballot of the entry, which leaves the table |
| `KepaxosRuns.ShortCommitVotes` | src/kepaxos.c:665-677 | a short-path commit has the votes of half the peers and a number not below any of them |
| `KepaxosRuns.ShortPathDominates` | src/kepaxos.c:574-698 | in every run: enough votes, `max_seq` exactly their maximum, every vote cast at an earlier step, and a committed number not below the request and the log of the voter at every step where such a vote answered a pre-accept |
| `KepaxosRuns.EscalationRaises` | src/kepaxos.c:679-693 | starting or retrying the accept phase drops the votes and raises the ballot above the old one and the received one; from pre-accept the number rises above the old one and every vote |
| `KepaxosRuns.ReceiveElsewhere` | src/kepaxos.c:881-938 | a message changes nothing but the entry and the log of its key |
| `KepaxosRuns.LeavingLogs` | src/kepaxos.c:871-876 | an entry that leaves by a commit, local or received, has a log not below it |
| `KepaxosRuns.CommittedSucceeds` | src/kepaxos.c:398-446 | a local command whose entry leaves by a successful commit makes the caller see 0 at any later moment, as long as its replica follows the rules for its key |
| `KepaxosRules.CommitsExactly` | src/kepaxos.c:633-698 | a delivery commits exactly if the response meets the ballot, status and quorum tests of a pending command and the callback takes it |
| `KepaxosRules.LogDropsExactly` | src/kepaxos.c:469-482 | without any rule, of all steps exactly a delivery that completes the quorum of a command behind the log lowers the log |
| `KepaxosRules.RecoveryExact` | src/kepaxos.c:940-952 | a recovery keeps the entry in step with the log exactly if it is stale or follows its rule |
| `KepaxosRules.RunAhead` | src/kepaxos.c:352-396 | as long as the recoveries of a replica stay below its pending local commands, these are strictly ahead of its log, whatever the callback does |
| `KepaxosRules.CommitRaisesLog` | src/kepaxos.c:469-482 | and every commit of a command with a type strictly raises its log |
| `KepaxosBroken.EarlyRecoveryLowersLog` | src/kepaxos.c:940-952 | a run of three replicas, every delivered message sent, in which only a recovery ahead of a pending command breaks a rule, and the log goes from 5 to 1 |
| `KepaxosBroken.UntypedCommitLowersLog` | src/kepaxos.c:751-839 | a run, every message delivered to whom it was sent, in which only the commit of an entry without a type breaks a rule, and the log goes from 5 to 2 |
| `KepaxosBroken.OneNumberTwoCommands` | src/kepaxos.c:595-623 | a run of three replicas in which every step follows the rules and two leaders commit any two commands under the same number of a key |
| `KepaxosExact.BallotLeast` | src/kepaxos.c:165-179 | the new ballot is the least one of the replica that is not below its own and whose counter exceeds the received one |
| `KepaxosExact.RunExactly` | src/kepaxos.c:352-419 | a new command takes the least number above those logged and pending, with no votes, and is proposed under it |
| `KepaxosExact.OutcomeExactly` | src/kepaxos.c:438-446 | the caller sees 0 exactly if the log has reached its number |
| `KepaxosExact.PreAcceptExactly` | src/kepaxos.c:573-631 | when a pre-accept is ignored, otherwise the answer with the greatest number in sight, and what becomes of the entry |
| `KepaxosExact.AcceptExactly` | src/kepaxos.c:700-749 | when an accept is ignored, otherwise what the entry takes and the answer tells |
| `KepaxosExact.CommitExactly` | src/kepaxos.c:841-879 | a received commit is ignored exactly if the entry has its number under a greater ballot or the log is ahead; otherwise it is logged, and the entry leaves unless it is ahead |
| `KepaxosExact.CountsAgreeing` | src/kepaxos.c:798-802 | the count is the number of votes with that number and ballot |
| `KepaxosExact.VoteExactly` | src/kepaxos.c:647-661 | a vote in terms of all votes: the maximum, whether it is known to be committed, who gave it, and when the short path is open |
| `KepaxosExact.ResponseExactly` | src/kepaxos.c:633-839 | a response is ignored, decides the command, opens an accept round or only adds a vote, exactly under the conditions stated, and what state and message each leads to |
| `KepaxosExact.ProposesExactly` | src/kepaxos.c:679-822 | of all steps exactly such a response proposes an accept round: the pre-accept is outvoted, the number is already committed, or half the peers have voted without agreeing; and the number of that round |
| `KepaxosExact.RecoveredExactly` | src/kepaxos.c:940-952 | a recovered pair is logged exactly if neither part is behind |
| `KepaxosExact.ExpiryAsks` | src/kepaxos.c:119-141 | in every run an expired entry is asked about exactly if it has a phase and its ballot is of another replica, and that one is asked |
| `KepaxosExact.PreAcceptAsks` | src/kepaxos.c:612-620 | in every run a pre-accept asks its sender exactly if it takes over an accepted entry from another |
| `KepaxosNode.Cmd.AddVote` | src/kepaxos.c:787-796 | the vote of an accept response in place |
| `KepaxosNode.Cmd.AddPreAcceptVote` | src/kepaxos.c:647-661 | the vote of a pre-accept response in place |
| `KepaxosNode.Cmd.CountVotes` | src/kepaxos.c:798-802 | the loop counts the votes that agree with the response |
| `KepaxosNode.Cmd.Restart` | src/kepaxos.c:679-693 | the reset of a command for an accept round |
| `KepaxosNode.Cmd.PreAccept` | src/kepaxos.c:595-623 | ballot and phase taken from a pre-accept |
| `KepaxosNode.Node.constructor` | src/kepaxos.c:181-218 | a fresh context |
| `KepaxosNode.Node.LastSeq` | src/kepaxos_log.c:120-178 | the logged number and ballot of a key, 0 for none |
| `KepaxosNode.Node.SetLastSeq` | src/kepaxos_log.c:181-298 | the log write and the recorded maximum ballot |
| `KepaxosNode.Node.UpdateBallot` | src/kepaxos.c:165-179 | `update_ballot` in place |
| `KepaxosNode.Node.ExpireCommand` | src/kepaxos.c:119-141 | an expired entry leaves the table, and the recover callback is asked exactly for one of another replica that has a phase |
| `KepaxosNode.Node.RunCommand` | src/kepaxos.c:352-419 | the new command object replaces the old one, the pre-accept is the one of the function, and no ballot, entry or log goes back |
| `KepaxosNode.Node.Outcome` | src/kepaxos.c:438-446 | the result of `kepaxos_run_command` |
| `KepaxosNode.Node.HandlePreAccept` | src/kepaxos.c:573-631 | the handler on objects computes the function, state and response, and asks the recover callback exactly when it takes over an accepted entry of another |
| `KepaxosNode.Node.CommitCommand` | src/kepaxos.c:469-482 | `kepaxos_commit` on a command that has left the table |
| `KepaxosNode.Node.HandlePreAcceptResponse` | src/kepaxos.c:633-698 | the handler on objects computes the function |
| `KepaxosNode.Node.HandleAccept` | src/kepaxos.c:700-749 | the handler on objects computes the function |
| `KepaxosNode.Node.HandleAcceptResponse` | src/kepaxos.c:751-839 | the handler on objects computes the function |
| `KepaxosNode.Node.HandleCommit` | src/kepaxos.c:841-879 | the handler on objects computes the function |
| `KepaxosNode.Node.Receive` | src/kepaxos.c:881-938 | a delivered message on objects computes the step of the runs; no ballot or entry goes back and the ballot exceeds the received one, whatever the callback returns; under its rule no log goes back |
| `KepaxosNode.Node.Recovered` | src/kepaxos.c:940-952 | `kepaxos_recovered` with its return code; no ballot or entry goes back, and under its rule no log |
| `KepaxosCodec.Layout` | src/kepaxos.c:256-327 | where the parts of a built message are |
| `KepaxosCodec.RoundTrip` | src/kepaxos.c:503-571 | parsing gives back what was built exactly if the sender with its zero is below 65536 bytes |
| `KepaxosCodec.Rebuild` | src/kepaxos.c:503-571 | on any accepted bytes, encoding what was parsed gives a prefix of them |
| `KepaxosCodec.BuildAgain` | src/kepaxos.c:256-327 | so does `kepaxos_build_message`, exactly if the sender ends at its only zero and the committed byte is 0 or 1 |
| `KepaxosCodec.CStringEnds` | src/kepaxos.c:256-327 | the sender is taken up to its first zero |
| `KepaxosCodec.Build` | src/kepaxos.c:256-327 | the walk over the allocated buffer fills it to its end with the encoding |
| `KepaxosCodec.Parse` | src/kepaxos.c:503-571 | on arbitrary bytes the walk reads only inside the message and computes the decoding |
| `Bytes.NetworkOrder` | src/kepaxos.c:256-327 | numbers are read with the most significant byte first |
| `Messaging.ReadInvertsV2` | src/messaging.c:381-448 | reading a built version 2 body gives its records, one to a buffer, their number, and what comes after it |
| `Messaging.ReadInvertsChunks` | src/messaging.c:454-476 | the version 1 branch inverts `_chunkize_buffer`, also at multiples of 65535 |
| `Messaging.ReadInvertsV1` | src/messaging.c:313-380 | the version 1 branch inverts the body of any records, empty ones among them |
| `Messaging.FilledAt` | src/messaging.c:429-437 | record `j` is appended to buffer `j` and no other buffer changes |
| `Messaging.NoopsSkipped` | src/messaging.c:272-274 | keep-alive bytes are skipped and nothing else |
| `Messaging.ReadInvertsBuild` | src/messaging.c:243-452 | for every known header and non-empty records within the limit, behind any number of keep-alive bytes, the same header, number and records, with what follows left unread |
| `MessagingSound.ReadExactly` | src/messaging.c:243-452 | `read_message` gives records exactly if the input, behind keep-alive bytes, is `shc`, a version of at most 2, a known header, and whole records of that version within the size limit, separated and ended as they should be; then it gives those records and leaves what is behind them |
| `MessagingSound.InvertsV2Exactly` | src/messaging.c:381-448 | in version 2 reading gives back what was built exactly if none of the records there are buffers for is empty, since an empty one is built without a length |
| `MessagingSound.NoRecords` | src/messaging.c:381-448 | a message built without records is read as one empty record, in both versions |
| `MessagingIO.Chunkize` | src/messaging.c:454-476 | the loop appends the chunked buffer |
| `MessagingIO.BuildMessage` | src/messaging.c:631-678 | the loop appends the message, separators between and terminator behind the records |
| `MessagingIO.ReadData` | src/messaging.c:388-419 | whatever pieces the data comes in, it succeeds exactly if there is enough and it fits, and then appends exactly it |
| `MessagingIO.ReadRecordsV2` | src/messaging.c:381-448 | the loop gives what the function says for the bytes, not for their pieces |
| `MessagingIO.ReadRecordsV1` | src/messaging.c:313-380 | the version 1 loop likewise |
| `MessagingIO.ReadPreamble` | src/messaging.c:270-311 | it accepts exactly a good magic, a supported version and a known header |
| `MessagingIO.ReadMessage` | src/messaging.c:243-452 | return code, header, buffers and unread input do not depend on how the data was cut |
| `AsyncModel.ParseTerminates` | src/async_reader.c:120-159 | the parse loop terminates unless it starts with an offset past the length |
| `AsyncModel.SpinsForever` | src/async_reader.c:120-159 | with an offset past the length neither half of an iteration changes anything |
| `AsyncModel.ParseSplit` | src/async_reader.c:120-159 | bytes that come later continue the loop where it stopped, and are left alone once it has ended the message |
| `AsyncModel.PreambleSplit` | src/async_reader.c:162-230 | so do bytes of the keep-alive, magic and header phases |
| `AsyncModel.FeedSplit` | src/async_reader.c:162-258 | feeding in two parts is feeding at once unless the cut leaves the reader stuck, and then the loop spins |
| `AsyncModel.NextMessage` | src/async_reader.c:166-178 | after a message the next bytes join those left alone and are read as by a new reader |
| `AsyncSound.PreambleExactly` | src/async_reader.c:181-232 | which first bytes are a failure, which a message of version 1, and where the records begin |
| `AsyncSound.NothingFed` | src/async_reader.c:161-179 | without bytes nothing happens, but that an update makes a finished reader ready for the next message |
| `AsyncSound.OnwardEnds` | src/async_reader.c:120-159 | if the loop comes to an end it has read whole records with separators between them, and behind them a 0, or a byte that should not be there exactly if it has failed |
| `AsyncSound.FinishedMessage` | src/async_reader.c:161-260 | whatever bytes a new reader takes for a message are one, and it hands on its records |
| `AsyncFragments.StreamBuilt` | src/messaging.c:631-678 | the streams below are what `build_message` makes, behind keep-alive bytes |
| `AsyncFragments.PartialBody` | src/async_reader.c:120-159 | at any cut through a body the reader waits, and is stuck exactly between a separator and the end of the next length; a whole body is handed over record by record |
| `AsyncFragments.PartialMessage` | src/async_reader.c:162-249 | the same for a message with its preamble; at its end the reader is done |
| `AsyncFragments.Fragmentation` | src/async_reader.c:162-258 | without a bad cut any pieces give the same records under the same numbers, one completion call, and the bytes of the next message untouched |
| `AsyncFragments.BadCutSpins` | src/async_reader.c:120-159 | with a bad cut the parse loop never returns |
| `AsyncFragments.FragmentationExact` | src/async_reader.c:49-258 | the reader gets through a message exactly if no cut is bad |
| `AsyncReader.Reader.NextRecord` | src/async_reader.c:48-81 | the separator, the terminator, the error and the missing byte |
| `AsyncReader.Reader.ParseV2` | src/async_reader.c:120-159 | the loop on the fields is the function, and reports where it would spin |
| `AsyncReader.Reader.Update` | src/async_reader.c:161-249 | `async_read_context_update` on the fields |
| `AsyncReader.Reader.Consume` | src/async_reader.c:251-258 | `async_read_context_consume_data` on the fields |
| `Chunker.EmittedLater` | src/serving.c:507-546 | data that arrives later is chunked with what was left, as if it had come at once |
| `Chunker.ChunkedSplits` | src/messaging.c:454-476 | a chunked value is its full chunks, the rest and the end mark |
| `Chunker.SentWhole` | src/serving.c:556-568 | the body is the one built at once exactly if the last chunk says its true size |
| `Chunker.PiecesSent` | src/serving.c:455-546 | after any non-empty pieces: one preamble, the full chunks, and less than 65535 bytes waiting |
| `Chunker.Streamed` | src/serving.c:455-593 | the completion makes the body the one `build_message` would emit; with data of its own exactly unless it adds to waiting data without filling a chunk |
| `Chunker.StreamedEmpty` | src/serving.c:484-501 | a value without data gives the body of an empty record |
| `Chunker.Closes` | src/serving.c:484-501 | a request is done exactly after an end call or a completion, and nothing waits after a completion |
| `Chunker.Request.SendEpilogue` | src/serving.c:301-338 | the end of a version 1 response |
| `Chunker.Request.SendChunks` | src/serving.c:505-546 | the loop sends the full chunks, keeps the rest, and says the size it will give the last chunk |
| `Chunker.Request.Respond` | src/serving.c:455-593 | the handler on the fields of a request computes the function |
| `FanOut.AppendedKeeps` | src/arc_ops.c:157-185 | a piece, whoever refuses it, leaves every registered listener with exactly the bytes of the object |
| `FanOut.NotifiedKeeps` | src/arc_ops.c:38-56 | completion and error give each registered listener one notice |
| `FanOut.JoinedKeeps` | src/shardcache.c:1080-1110 | a client that joins at any moment is up to date at once |
| `FanOut.StepKeeps` | src/arc_ops.c:68-196 | every step but an empty value from storage keeps the invariant |
| `FanOut.EmptyValueExact` | src/arc_ops.c:441-450 | an empty value from storage keeps the invariant exactly if every registered listener refuses its first call |
| `FanOut.StepExact` | src/arc_ops.c:68-450 | so a step keeps it exactly if it is guarded |
| `FanOut.EmptyValueNotifiesTwice` | src/shardcache.c:824-858 | a client that joins before an empty value comes is told an error and then a completion |
| `FanOut.RunInv` | src/arc_ops.c:68-450 | in every guarded run a registered listener has the current bytes, any client a prefix and at most one notice, and on completion the full value |
| `FanOut.RunInvExact` | src/arc_ops.c:68-450 | of all runs exactly the guarded ones end so: in any other some client has had two notices |
| `FanOut.RunOnward` | src/arc_ops.c:68-450 | over any run, guarded or not, bytes only come behind bytes, an unregistered client gets nothing, and a complete value stays |
| `FanOut.NothingAfterNotice` | src/arc_ops.c:38-56 | in a guarded run a client is never given anything after its notice |
| `FanOut.StepItself` | src/arc_ops.c:105-185 | what each step does to the flags and the bytes of the object |
| `FanOut.EverybodyServed` | src/arc_ops.c:24-56 | in every guarded run the clients are those that asked, and whoever refuses nothing still listens with all the bytes or has had exactly one notice, of the completion unless the fetch failed |
| `CachedObject.Store.Grow` | src/arc_ops.c:161-168 | moving to a larger buffer keeps the data |
| `CachedObject.Store.Append` | src/arc_ops.c:157-174 | the inline buffer that spills to the heap refines plain append |
| `CachedObject.Cached.NotifyPiece` | src/arc_ops.c:24-36 | the loop gives the piece to every listener once, an empty one as an end call, and takes exactly those whose callback returns an error off the list |
| `CachedObject.Cached.NotifyEnd` | src/arc_ops.c:38-56 | the loop notifies every listener once and empties the list |
| `CachedObject.Cached.Piece` | src/arc_ops.c:157-185 | the data callback on the object is the step |
| `CachedObject.Cached.Finish` | src/arc_ops.c:105-126 | so is completion |
| `CachedObject.Cached.Fail` | src/arc_ops.c:127-137 | so is failure |
| `CachedObject.Cached.Join` | src/shardcache.c:1080-1110 | so is `shardcache_get`, through `shardcache_get_async_helper` |
| `CachedObject.Cached.Local` | src/arc_ops.c:311-450 | a local value, copied from the volatile storage into the buffer that fits it or taken over from the other one, is handed to the listeners and completes the object |
| `ConsistentHash.BucketsAt` | python/shardcache-client/shardcache_client/chash.py:34-43 | every node has as many points as there are replicas; point `i` is the hash of the decimal of `i` and the name |
| `ConsistentHash.SortedOrdered` | python/shardcache-client/shardcache_client/chash.py:43 | the ring holds every point once, in ascending order |
| `ConsistentHash.SortedFilter` | python/shardcache-client/shardcache_client/chash.py:43 | the sort is stable: it commutes with leaving points out |
| `ConsistentHash.FirstAboveLeast` | python/shardcache-client/shardcache_client/chash.py:45-60 | the first greater bucket is the least greater point |
| `ConsistentHash.MinimalDisruption` | python/shardcache-client/shardcache_client/chash.py:34-60 | taking a node away, or putting one in, changes the owner of no key but those the node owns, also where points collide |
| `ConsistentHash.Added` | python/shardcache-client/shardcache_client/chash.py:34-60 | with a new node anywhere in the list every key stays or moves to it |
| `ConsistentHash.CHash.constructor` | python/shardcache-client/shardcache_client/chash.py:34-43 | the loops build the points and the ring is in order |
| `ConsistentHash.CHash.Lookup` | python/shardcache-client/shardcache_client/chash.py:45-60 | the binary search finds the owner: the first greater point, or the first bucket |
| `Migration.Migrator.Ownership` | src/shardcache.c:40-87 | the test looks for the continuum unless there is one shard only; a key that is not its own comes with its owner under the new continuum, and -1 means that there is none |
| `Migration.Migrator.NodeSelect` | src/shardcache_node.c:145-167 | the first node with that name, the old shards first and the nodes of the migration only while its continuum is there, or none exactly if there is none |
| `Migration.Migrator.MigrateKey` | src/shardcache.c:2602-2636 | exactly which calls are made for a key of another node: the fetch, the selection of the owner by name, the transfer of that value to it; a key is marked exactly if that is acknowledged, and each failure is one error |
| `Migration.Migrator.Scan` | src/shardcache.c:2583-2638 | the keys are handled in turn, each with exactly its calls, until a test finds no continuum; nothing is deleted, exactly the acknowledged keys are marked, errors are counted exactly, and without errors none that belongs elsewhere is missed |
| `Migration.Migrator.Delete` | src/shardcache.c:2646-2656 | the remove callback is called for exactly the marked keys in order; the moment after each removal, whether or not the storage carries it out, is the one stated |
| `Migration.Migrator.ExpireMigrated` | src/shardcache.c:2534-2553 | only volatile keys of other nodes are made to expire, and all of them unless a test finds no continuum |
| `Migration.Migrator.Migrate` | src/shardcache.c:2556-2678 | all calls of the pass in order; at every moment, each scanned key and each removal among them, every value is here or acknowledged by its owner; removal is asked for exactly for the acknowledged keys, an aborted scan deletes nothing and expires nothing, and without errors nothing that belongs elsewhere is left out |

## Left out

- `arc_clear`, `arc_destroy`, `arc_lookup_nofetch` and `arc_lookup_multi`.
- Arc.Arc.Lookup: stated without other threads between its sections; `ArcRuns.LookupEndsBounded` has them.
- Arc.Arc.Load: the value stored into an object that is already there is not modelled, as the cache does not look at values.
- `size_t` overflow of byte sums, and loaded objects in the byte bound: they enter no list.
- The window in `src/arc.c` between entering a new object in the hash and locking it, and between the unlocked guard of `arc_move` and its lock.
- Agreement of replicas on (key, number): it does not hold (`KepaxosBroken.OneNumberTwoCommands`), because a voter stores the interfering number and not the proposed one.
- 64-bit wrap-around of ballots and numbers, the ballot after a restart, log files and the ballot diff, command timeouts and waiting, and what the recover callback does.
- KepaxosRuns.Deliverable: a message may reach any replica, not only its addressees, and a peer may vote twice by a repeated message, as in the code.
- MessagingIO.ReadMessage: says nothing about the buffers after a failure, where the code cuts one back to the initial length of the first; buffers that are null, timeouts and interrupted reads are not modelled.
- MessagingIO.Socket.Take: a short field that arrives in parts, which `read_message` loses, is not modelled.
- `array_to_record` and `record_to_array`.
- AsyncModel.Update: stops at a message of version 1; records over 65535 bytes, whose offset does not fit in 16 bits, a full ring buffer and a callback that returns an error are not modelled.
- AsyncReader.Reader.Update: likewise stops at a message of version 1.
- AsyncFragments.FragmentationExact: for non-empty records below 65536 bytes.
- Chunker.Handle: version 1 and plain gets only; `GET_OFFSET`, version 2 and multi-gets are not modelled.
- Chunker.Request.Respond: likewise for version 1 and plain gets only.
- FanOut.JoinedKeeps: eviction flags and lazy expiration, under which `shardcache_get` asks again, are not modelled.
- CachedObject.Cached.Join: likewise without eviction flags and lazy expiration.
- CachedObject.Cached.Local: after an empty value the code calls a listener whose argument it has freed; only the calls are modelled.
- FanOut.Enabled: an object is fetched once and a client asks once; eviction flags, lazy expiration, `shardcache_get_offset` and the retry loop of `shardcache_get` are not modelled.
- ConsistentHash.Points: the hash function is a parameter; the ring of the C library and the Java ring are the same algorithm.
- Migration.Migrator.Migrate: writes of clients during the pass, owner names of more than 1023 bytes, and the end of a migration inside the ownership test are not modelled.
- Sockets, connection pool, threads, storage plugins, counters, tools and bindings.
