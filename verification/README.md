# Verification models for broccoliv2

Dafny models of the parts of broccoliv2 that carry state, a protocol or arithmetic, with proofs about
every input, every run or every reachable state. `dafny verify dfyconfig.toml` checks the project.

| component | files | what is modelled |
|---|---|---|
| Redis lock | `LockStore`, `LockLedger`, `LockProtocol`, `LockTheorems`, `Locker` | one key, any number of lockers and calls of `Run`, interleaved with each other and the clock; a command and its reply are separate steps, replies can be lost, and a command the locker has given up on can reach the server at any later time |
| RabbitMQ broker | `RabbitProtocol`, `RabbitObject` | the reconnect goroutine, `Connect`, `Close`, any number of subscribers and message handlers; Go channels are identities with a closed bit |
| RPC errors | `RpcError` | wrapping in the server wrapper, unwrapping in the client wrapper, any number of hops |
| Ids | `Sequence`, `Uuid` | the generator's packing and uniqueness, the printed text, `BKDRHash` |
| Struct conversion | `ProtoStruct` | Go maps to protobuf Structs and back, with float64 rounding of integers |
| Names | `CamelCase` | the scanner and its fixed points |
| HTTP retries | `HttpRetry` | attempts, body rewinding, response closing, time slept |
| Configuration | `ConfigFlow` | from etcd events through the bounded queue to the container |
| Encryption | `Cbc` | padding, chaining over any block permutation, the AES wrappers |

Code that changes state is modelled as it is written: classes with the source's fields, methods with
its loops. For the two concurrent components a state machine on values (`LockProtocol`,
`RabbitProtocol`) carries the theorems about runs. The classes in `Locker` and `RabbitObject` execute
the source's statements in a `World` whose method `Others` lets everybody else take any number of
steps of the machine in between; every one of their executions is a run of the machine, so the
theorems hold for them.

Assumptions, all of them visible as `requires` clauses or enabling conditions: a drawn lock token was
never drawn before; `LockTimeout` is at least a millisecond; `Connect` is called only while no
reconnect loop is alive; no default message of a non-negative error code starts with `-@`; the jitter
of a constant backoff is at least a millisecond.

## What the code does that its comments do not say

- A first `Close` lasts if and only if, when it is called, no reconnect loop is alive and no `Connect` is
  under way (`RabbitProtocol.CloseLastsExactly`). The loop looks at the close channel only while it watches
  a connection, and may even then see the drop first; it dials on, sets `connected` and only then goes away.
  After that `Connect` and `Close` do nothing any more (`RabbitProtocol.StuckForever`).
- A handler that outlives its lease does not keep the next one out: a call of `Run` starts its handler
  beside it if and only if every lease has run out (`LockTheorems.JoinsExactly`), and of two handlers that
  run at once the first has lost its lease (`LockTheorems.OverlapOutlived`). For calls of `Run` that return
  nil, whose release found the token in place, handlers never overlap.
- An etcd event for a key that did not exist before has no previous value, and `Subscribe` dereferences
  it (`ConfigFlow.Engine.Handle`, outcome `Crashed`); any key under the watched prefix can cause this.
- `Subscribe` closes the cancel channel on every return, and the goroutine that called it closes it again:
  in the service every end of the watch is a panic (`ConfigFlow.WatchForService`).
- A nil inside a slice or a nested map becomes the text `<invalid reflect.Value>`; empty containers
  become nil values, which the decoder panics on (`ProtoStruct.ThereAndBack`).
- After its last retry `do` returns a 5xx response's body without an error (`HttpRetry.Do`).
- The comment above the id generator describes another layout than the one `gen` packs; the model follows `gen`.

## Model

| member | source | states |
|---|---|---|
| LockOptions.Options.Normalize | lock/redis/options.go:24-35 | afterwards every option is in range, and options that were in range kept their values |
| LockLedger.ServeKeeps | lock/redis/lock.go:18-19 | SETNX, compare-and-expire and compare-and-delete keep the ledger invariant: the entry is the latest unreleased grant, running leases are what the store holds, no grant falls inside another token's span |
| LockProtocol.LateKept | lock/redis/lock.go:105-209 | what is known of commands nobody waits for is kept by every step: a late SETNX is the only one of a token never granted, and no locker uses the token of a late SETNX or deletion |
| LockProtocol.StepInv | lock/redis/lock.go:126-209 | every step of every locker, of its messages, of late commands and of the clock keeps the whole invariant |
| LockProtocol.ReachableInv | lock/redis/lock.go:105-209 | the invariant holds in every state any run of any number of lockers can reach |
| LockTheorems.SpansDisjoint | lock/redis/lock.go:181-205 | for any two tokens released by their own compare-and-delete, the spans from grant to release do not overlap |
| LockTheorems.HandlersDisjoint | lock/redis/lock.go:44-62 | the handlers of two calls of Run that returned nil ran one strictly after the other, in every run |
| LockTheorems.OverlapOutlived | lock/redis/lock.go:50-61 | whenever two handlers run at once, the lease of the one granted first has run out |
| LockTheorems.JoinsExactly | lock/redis/lock.go:50-61 | while a handler runs, another call of Run that nothing delays starts its own beside it if and only if every lease has run out |
| LockTheorems.OutlivedHandlersOverlap | lock/redis/lock.go:50-61 | a reachable state with two handlers running |
| LockTheorems.SetNXExactly | lock/redis/lock.go:181-190 | a SETNX succeeds if and only if every lease ever promised has run out or was released |
| LockTheorems.LeaseLasts | lock/redis/lock.go:170-190 | along any continuation of a run a granted or refreshed lease keeps the key until its promised expiry or its own release |
| LockTheorems.LeaseKeepsOthersOut | lock/redis/lock.go:105-113 | no SETNX, whoever sent it and however late, succeeds before a lease's promised expiry unless the lease was released by its owner |
| LockTheorems.EntryBounded | lock/redis/lock.go:18-19 | a live entry never expires later than now plus the largest LockTimeout |
| LockTheorems.StaleHarmless | lock/redis/lock.go:170-205 | no command, however stale or late, changes a live entry that holds the token of another locker than its sender |
| LockTheorems.OrphanFreesItself | lock/redis/lock.go:181-190 | a grant nobody knows of, its reply lost or its SETNX late, leaves the key free after its owner's LockTimeout, plus one LockTimeout for each refresh of it that is still under way |
| LockTheorems.TrueIsEarned | lock/redis/lock.go:105-179 | LockWithContext returns true only with a token whose lease was set during that call; a refresh that found the lease lost never answers true itself, only a new token drawn and granted in the call does |
| LockTheorems.CreatesExactly | lock/redis/lock.go:126-168 | a create that nothing delays gets the lock if and only if no lease runs; otherwise it gives up without retries, and pauses with them |
| LockTheorems.RetriesExactly | lock/redis/lock.go:138-167 | after a pause one more attempt with the same token, with the same three ends, the last attempt giving up |
| LockTheorems.AnswersExactly | lock/redis/lock.go:18-19 | the server says yes to a refresh or a release if and only if the lease of its token still runs, and then renews it or frees the key |
| LockTheorems.RefreshesExactly | lock/redis/lock.go:105-179 | a locker with a token that calls Lock is answered true, with the same token and a lease of LockTimeout from now, if and only if its lease still runs; otherwise it creates |
| LockTheorems.UnlocksExactly | lock/redis/lock.go:116-122 | Unlock ends without an error, its token released and the key free, if and only if the lease still runs |
| LockTheorems.UnlockIsEarned | lock/redis/lock.go:192-205 | in every run, an Unlock without an error means that this locker's token was released |
| LockTheorems.FinishesExactly | lock/redis/lock.go:55-61 | a call of Run whose handler ends in time returns nil if and only if its lease still runs then |
| LockerObject.Locker.constructor | lock/redis/lock.go:77-87 | New copies and normalizes the options: five seconds for a LockTimeout that is not positive, otherwise its whole milliseconds, and no negative retries; the caller's options are untouched, and there is no token |
| LockTheorems.LockedHolds | lock/redis/lock.go:90-96 | between its calls a locker with a token was granted it and has not released it, and the server holds it exactly as long as the lease promised |
| LockTheorems.UnlockedForgets | lock/redis/lock.go:90-96 | between its calls a locker without a token has forgotten every lease granted to it that is not released |
| LockerObject.Locker.IsLocked | lock/redis/lock.go:90-96 | true: the token was granted to this locker, was not released, and holds the key until its lease runs out; false: every unreleased grant of this locker is forgotten |
| LockerObject.Locker.LockWithContext | lock/redis/lock.go:105-113 | under any interference: with a token it starts with a compare-and-expire of it, which works exactly while the lease runs, and goes by its outcome; a true answer comes with a token, any other with none, or with the old one after an error; a call of Run gets to its handler exactly when the lock was obtained |
| LockerObject.Locker.Create | lock/redis/lock.go:126-168 | at most RetryCount+1 SETNX calls, a pause between any two; true exactly when the last SETNX said so, an error exactly after a failed command, a cancelled pause or a failed draw, and neither only after RetryCount+1 noes; a token exactly if true |
| LockerObject.Locker.TryToken | lock/redis/lock.go:140-167 | the loop of create, with the same bounds for one token |
| LockerObject.Locker.Obtain | lock/redis/lock.go:181-190 | one SETNX, with its three outcomes for a locker that tries a token |
| LockerObject.Locker.Pause | lock/redis/lock.go:155-166 | one wait, ended by the timer or by the context |
| LockerObject.Locker.DrawFresh | lock/redis/lock.go:127-134 | the token is reset, and a token nobody drew before or an error comes back |
| LockerObject.Locker.Refresh | lock/redis/lock.go:170-179 | a failed command is an error that keeps the token, status 1, which comes exactly while the lease runs, is true and keeps it, and any other status is a new create, after which there is a token only if it was true |
| LockerObject.Locker.Release | lock/redis/lock.go:192-209 | the token field is empty afterwards whatever the reply was, and there is no error exactly if the server deleted the entry, which it does while the lease runs, and its reply arrived |
| LockerObject.Locker.Unlock | lock/redis/lock.go:116-122 | as release, for a locker driven by its own caller |
| LockerObject.Locker.Run | lock/redis/lock.go:44-62 | nil is returned exactly in the state HandlersDisjoint speaks about, and exactly if the lock was obtained, the handler was in time, the delete took effect and its reply arrived |
| LockerObject.RunsExclusive | lock/redis/lock.go:44-62 | HandlersDisjoint for two calls of Run that have returned nil in a world |
| RabbitProtocol.ConnStepKeeps | pubsub/broker/rabbitmq/connection.go:92-184 | every step of connect, reconnect, Connect and Close keeps the connection's invariant |
| RabbitProtocol.StepInv | pubsub/broker/rabbitmq/rabbitmq.go:78-141 | every step of connection, subscribers and handlers keeps the whole invariant |
| RabbitProtocol.GatesSafe | pubsub/broker/rabbitmq/connection.go:108-146 | in every reachable state only the current gate can be open, it is open exactly during an outage, and closing it never hits a closed channel |
| RabbitProtocol.NobodyForgotten | pubsub/broker/rabbitmq/rabbitmq.go:93-100 | a waiting subscriber can go on, or there is an outage and it waits on the current gate |
| RabbitProtocol.ConsumesConnected | pubsub/broker/rabbitmq/rabbitmq.go:102-116 | as long as the close channel is open, a subscriber proceeds to Consume if and only if the loop watches the connection or is in the windows right around that |
| RabbitProtocol.ConnectedExactly | pubsub/broker/rabbitmq/connection.go:98-146 | as long as the close channel is open, connected holds exactly while the loop watches or is in the windows right around that |
| RabbitProtocol.OpenWithoutClose | pubsub/broker/rabbitmq/connection.go:148-184 | a run without Close leaves the close channel open |
| RabbitProtocol.ConnectOpens | pubsub/broker/rabbitmq/connection.go:148-169 | from a Connect that finds the connection down until the next Close, in every run, the close channel is open: no loop and no subscriber that checks after it sees a shutdown |
| RabbitProtocol.ConnectConnects | pubsub/broker/rabbitmq/connection.go:92-106 | a Connect whose dial works leads to a connection that is up, watched and open |
| RabbitProtocol.OutageHeals | pubsub/broker/rabbitmq/connection.go:108-146 | a drop takes connected away and opens a new gate; after a failed and a working dial it is up and watched, with every gate closed |
| RabbitProtocol.TurnsExactly | pubsub/broker/rabbitmq/rabbitmq.go:84-107 | a subscriber ends if and only if it is unsubscribed, waits if and only if there is an outage, sees a shutdown only if the close channel is closed, and goes on to Consume if and only if the connection is up |
| RabbitProtocol.DeliveriesExactly | pubsub/broker/rabbitmq/rabbitmq.go:133-139 | one delivery from receive to the end of its goroutine: fn once, its ack or nack as options and error say, and the wait group as before |
| RabbitProtocol.CloseLastsExactly | pubsub/broker/rabbitmq/connection.go:171-184 | without another Connect, connected is false for ever after a Close if and only if no loop was alive, no Connect was under way and connected was false already; otherwise it can end true with nobody watching |
| RabbitProtocol.ClosedComesUndone | pubsub/broker/rabbitmq/connection.go:108-146 | from every state of a closed connection with a loop alive or a Connect under way, it can end connected with nobody watching |
| RabbitProtocol.StuckForever | pubsub/broker/rabbitmq/connection.go:148-184 | once that has happened, no run of any steps, Connect and Close included, changes the connection any more |
| RabbitProtocol.CloseWhileWatching | pubsub/broker/rabbitmq/connection.go:112-144 | a reachable state of that kind, by a Close of a connection that was up and watched |
| RabbitProtocol.NoneInFlight | pubsub/broker/rabbitmq/rabbitmq.go:285-292 | when the wait group is at zero every delivery received so far was handled to its end |
| RabbitProtocol.CounterIsOpen | pubsub/broker/rabbitmq/rabbitmq.go:133-139 | the counter is the number of deliveries counted and not yet done, and is never negative |
| RabbitProtocol.HandledOnce | pubsub/broker/rabbitmq/rabbitmq.go:217-236 | fn ran exactly once for a finished delivery; it was acked once if and only if it succeeded with AckOnSuccess and without auto-ack, and nacked once if and only if it failed without auto-ack |
| RabbitObject.Connect | pubsub/broker/rabbitmq/connection.go:92-169 | connected already and nothing done; or an error after one failed dial, and no loop; or the dial, connected set and a loop started, in this order |
| RabbitObject.Reconnect | pubsub/broker/rabbitmq/connection.go:108-146 | under any interference it returns only after seeing the close channel closed, never panics, and acts in every turn |
| RabbitObject.Close | pubsub/broker/rabbitmq/connection.go:171-184 | the close channel is closed and, if this call closed it, connected is false |
| RabbitObject.Disconnect | pubsub/broker/rabbitmq/rabbitmq.go:285-292 | it closes the connection first; Wait returns at an instant with the wait group at zero, and then every delivery received so far is done |
| RabbitProtocol.UnsubscribedConsumes | pubsub/broker/rabbitmq/rabbitmq.go:78-107 | in every run after an Unsubscribe the subscriber calls Consume at most once more, and only if it was past its check |
| RabbitObject.UnsubscribeSub | pubsub/broker/rabbitmq/rabbitmq.go:68-76 | the next check ends the subscriber, and however things go on it calls Consume at most once more |
| RabbitObject.AwaitAndConsume | pubsub/broker/rabbitmq/rabbitmq.go:84-119 | one turn of the subscriber, with exactly the steps it takes: ended, blocked (in an outage only), not connected, or a result of Consume |
| RabbitObject.Resubscribe | pubsub/broker/rabbitmq/rabbitmq.go:78-141 | for every pattern of results of Consume the pauses are exactly those of Pauses: the k-th failure in a row waits min(100 ms * 2^k, 30 s), a success resets k |
| RabbitObject.PausesExample | pubsub/broker/rabbitmq/rabbitmq.go:78-82 | 100 ms, 200 ms, and 100 ms again after a success; the ninth failure in a row waits 25.6 s, the tenth 30 s |
| RabbitObject.DelayStep | pubsub/broker/rabbitmq/rabbitmq.go:125-131 | capping, sleeping and doubling the stored delay gives that pause, and the stored delay never exceeds 60 s |
| RabbitObject.RangeOver | pubsub/broker/rabbitmq/rabbitmq.go:133-139 | the subscriber's steps are count, start, count, start, and so on, and the end of the range; no delivery of it that is counted is left without its goroutine |
| RabbitObject.HandleDelivery | pubsub/broker/rabbitmq/rabbitmq.go:135-138 | the goroutine of one delivery runs fn once, acks or nacks as options and error say, and is done |
| RpcError.ToInt32 | microsrv/gomicro/wrap.go:160-160 | the conversion to int32 is in range, congruent modulo 2^32 and the identity on the range |
| RpcError.TaggedIsPrefix | microsrv/gomicro/wrap.go:272-274 | splitting at the first @ with a first part "-" is the same as starting with "-@" |
| RpcError.GmError.TagNegative | microsrv/gomicro/wrap.go:164-169 | the server's in-place rewriting of a negative code |
| RpcError.GmError.ToBroccoli | microsrv/gomicro/wrap.go:267-286 | the client's in-place undoing and the error it builds |
| RpcError.ToGoMicro | microsrv/gomicro/wrap.go:145-182 | which error goes on the wire for each kind of error a handler returns |
| RpcError.CallOnce | microsrv/gomicro/wrap.go:264-287 | both wrappers, one after the other, give what the next three rows speak about |
| RpcError.FlaggedCall | microsrv/gomicro/wrap.go:163-169 | on a broccoli call a code from above -2^31 is not negative on the wire, a negative one is tagged, and the client's caller gets own code and message if and only if it was negative or the message does not start with "-@" |
| RpcError.UnflaggedCall | microsrv/gomicro/wrap.go:151-171 | on any other call code and message are on the wire as they are |
| RpcError.OtherCalls | microsrv/gomicro/wrap.go:174-180 | what a client gets for a go-micro error, for any other error and for none |
| RpcError.HopKeepsExactly | microsrv/gomicro/wrap.go:151-171 | a flagged hop keeps code and message (defaulted if blank) if and only if the code fits 32 bits and it is not a non-negative code with a message starting "-@" |
| RpcError.WireNegativeExactly | microsrv/gomicro/wrap.go:164-169 | a flagged code is negative on the wire exactly if it is -2^31 modulo 2^32 |
| RpcError.ManyHopsAreOne | microsrv/gomicro/wrap.go:264-287 | after any number n >= 1 of hops: own code and message, service id of the origin, cause with the tracer prefix once |
| RpcError.ManyHopsKeepExactly | microsrv/gomicro/wrap.go:264-287 | any number n >= 1 of hops keeps code and message exactly for the errors one hop keeps |
| RpcError.TaggedMessageIsLost | microsrv/gomicro/wrap.go:273-277 | a hop negates the code of every non-negative error whose message starts "-@" and strips the message |
| RpcError.TaggedMessageExample | microsrv/gomicro/wrap.go:273-277 | a concrete error that a hop changes |
| Sequence.Generator.Gen | sequence/sequence.go:56-76 | the emitted ids, in order, for every sequence of clock and random values |
| Sequence.MiddleBits | sequence/sequence.go:65-66 | the mask keeps bits 16 to 23 in their place |
| Sequence.ClockWraps | sequence/sequence.go:58-62 | of the clock only the low 32 bits count |
| Sequence.FirstIds | sequence/sequence.go:56-76 | the first three ids of a second |
| Sequence.IdNumber | sequence/sequence.go:56-76 | an id carries its second and its number within that second, from 1 |
| Sequence.CollideExactly | sequence/sequence.go:65-74 | below 2^24 ids a second, two ids are equal if and only if they are of one second, the earlier random and the later not, and the random byte spells the later count's high byte |
| Sequence.Unique | sequence/sequence.go:56-76 | with at most 65535 ids a second all ids of a run are distinct |
| Sequence.Decodes | sequence/sequence.go:63-67 | such an id is below 2^56 and decodes to its second and number |
| Sequence.AtMostTwice | sequence/sequence.go:65-74 | below 2^24 ids a second no value is emitted three times and ids of different seconds differ |
| Uuid.PrintInjective | sequence/sequence.go:85-88 | the text id-c determines the pair |
| Uuid.PrintReads | sequence/sequence.go:84-88 | the text has one dash; before it stands the server's number, behind it the id's, in decimal |
| Uuid.PrintExample | sequence/sequence.go:84-88 | a concrete text |
| Uuid.BKDRHash | sequence/sequence.go:93-100 | wrapping 32-bit arithmetic yields the base-131 polynomial of the bytes modulo 2^31 |
| Uuid.HashConcat | sequence/sequence.go:93-100 | the hash of a concatenation is hash(a)*131^len(b)+hash(b) modulo 2^31 |
| ProtoStruct.ToStruct | utils/protobuf/struct.go:12-24 | the loop computes ToStructOf |
| ProtoStruct.ReflectValue | utils/protobuf/struct.go:115-221 | the recursion with its loops computes ReflectOf |
| ProtoStruct.DecodeToMap | utils/protobuf/struct.go:225-234 | the loop computes DecodeToMapOf, None being the panic |
| ProtoStruct.DecodeValue | utils/protobuf/struct.go:236-257 | the recursion with its loops computes DecodeValueOf |
| ProtoStruct.DecodesExactly | utils/protobuf/struct.go:223-257 | a value decodes to a tree if and only if it stands for it, kind for kind, key for key and element for element |
| ProtoStruct.ThereAndBack | utils/protobuf/struct.go:115-221 | inside a container, reflecting and decoding prints nils and makes numbers floats, or panics if and only if there is something empty in the tree |
| ProtoStruct.MapThereAndBack | utils/protobuf/struct.go:12-24 | DecodeToMap after ToStruct for every map: nil for an empty one, a panic if and only if an entry is nil or holds something empty, otherwise the printed tree |
| ProtoStruct.RoundsToNearest | utils/protobuf/struct.go:37-84 | an integer becomes the nearest float, an even one of two |
| ProtoStruct.StructRoundTrip | utils/protobuf/struct.go:223-257 | ToStruct after DecodeToMap is the identity if and only if the struct is nil, or non-empty without nulls, nil pointers and empty parts at every depth |
| ProtoStruct.MapRoundTrip | utils/protobuf/struct.go:12-24 | DecodeToMap after ToStruct gives the map with its numbers as floats if and only if the map is nil, or has no nils and nothing empty at any depth |
| ProtoStruct.NumbersKeptExactly | utils/protobuf/struct.go:37-84 | those floats have the values of the numbers if and only if every integer is a multiple of the spacing of floats around it |
| ProtoStruct.SmallNumbersKept | utils/protobuf/struct.go:37-84 | which holds when the integers lie within 2^53 |
| ProtoStruct.BeyondPrecision | utils/protobuf/struct.go:55-60 | 2^53+1 is the first that does not survive |
| CamelCase.CamelCase | tools/gen-broccoli/generator/comm.go:377-414 | the nested index loops compute, for every byte string, what each byte contributes given its two neighbours |
| CamelCase.WordByWord | tools/gen-broccoli/generator/comm.go:377-414 | the pieces of the bytes make the words: an underscore before a letter dropped, a digit on its own, any other byte capitalised with the letters behind it |
| CamelCase.CamelExample | tools/gen-broccoli/generator/comm.go:376-376 | two concrete names |
| CamelCase.Camel | tools/gen-broccoli/generator/comm.go:377-414 | the name is never longer than its input |
| CamelCase.FixedPoints | tools/gen-broccoli/generator/comm.go:376-414 | a string is left unchanged if and only if it starts with neither underscore nor lower-case letter and has no lower-case letter right after an underscore or a digit |
| CamelCase.Idempotent | tools/gen-broccoli/generator/comm.go:376-414 | the conversion is idempotent |
| HttpRetry.NewConstantBackoff | httpclient/backoff.go:25-30 | durations are cut down to milliseconds; Next can be called if and only if the maximum jitter is at least one |
| HttpRetry.ConstantBackoff.Next | httpclient/backoff.go:33-38 | no pause before the first retry number, then between the interval and interval plus jitter less one |
| HttpRetry.AttemptsAt | httpclient/client.go:307-330 | the number of attempts is decided by the first answer below 500 |
| HttpRetry.SendUntilAnswered | httpclient/client.go:305-330 | the loop makes exactly that many attempts, offers the same whole body each time and leaves only the last response open |
| HttpRetry.SleptWithin | httpclient/backoff.go:33-38 | the sum of the pauses: nothing after the first attempt, and from B to B+J-1 ms after each other one |
| HttpRetry.Do | httpclient/client.go:293-364 | at most RetryCount+1 attempts, each but the last a failure or a status of 500 or above, the same bytes each time, every response body closed exactly once, the time slept, at most RetryCount*(B+J-1) ms, and the bytes of the last answer if they can be read |
| ConfigFlow.Engine.RefreshConfig | engine/etcd/ng.go:117-153 | a content that does not parse leaves the engine's configuration as it was |
| ConfigFlow.EffectExactly | engine/etcd/ng.go:197-216 | an event has an effect if and only if it is a put of the watched key with a new value that is not blank and parses, and then it is what parses |
| ConfigFlow.YieldNext | engine/etcd/ng.go:196-217 | one event more yields its effect, and nothing else |
| ConfigFlow.EventsExactly | engine/etcd/ng.go:188-196 | all events of a response count, and none behind one that stops the watch |
| ConfigFlow.Engine.ParseConfigChange | engine/etcd/ng.go:243-261 | which events change the engine's configuration, and to what |
| ConfigFlow.Queue.Offer | engine/etcd/ng.go:209-216 | a change enters the queue of ten, or is dropped when that is full |
| ConfigFlow.Service.Push | engine/etcd/ng.go:209-216 | any ready case of the select may be taken: a change is dropped only when the queue is full and no cancel is waiting, and a cancel is received only if one was sent or the channel is closed |
| ConfigFlow.Override | service/service.go:240-258 | field by field: each log setting is the command line's unless that is blank, and nothing else changes |
| ConfigFlow.Engine.Handle | engine/etcd/ng.go:197-218 | one event with the consumer running beside it: the engine stays with the newest configuration that parsed, and an event without previous value crashes |
| ConfigFlow.Engine.Watch | engine/etcd/ng.go:188-219 | for every history of responses and every speed of the consumer: the changes offered are those the events yield, in order, none is dropped unless more come than the queue has room for, and how far the watch gets |
| ConfigFlow.Engine.Subscribe | engine/etcd/ng.go:182-221 | the same, with the deferred close of the cancel channel, which panics exactly if that was closed before |
| ConfigFlow.WatchForService | service/service.go:208-216 | however the watch ends in the service, the cancel channel is closed twice and the end is a panic |
| ConfigFlow.Service.ProcessChange | service/service.go:240-258 | the container is reloaded with the configuration under the command line's log overrides |
| ConfigFlow.Service.Drain | service/service.go:219-232 | with the queue drained the container runs with the newest accepted configuration |
| ConfigFlow.LoadEngine | service/service.go:183-206 | without a stored configuration that parses there is no service; otherwise engine and container start with it, the container under the overrides |
| ConfigFlow.Drained | service/service.go:219-232 | with an empty queue the container has the engine's configuration, overrides applied, when the newest change was not dropped, and no change is dropped if the queue was never full |
| ConfigFlow.ReloadsInOrder | service/service.go:219-232 | the reloads are an in-order subsequence of the configurations that parsed |
| Cbc.UnpadsExactly | utils/common.go:78-88 | for every block size, unpadding undoes padding if and only if the padding length fits a byte |
| Cbc.PaddedIsWhole | utils/common.go:78-82 | padding gives whole blocks |
| Cbc.PaddingBytes | utils/common.go:78-82 | up to 255, it is one to blockSize bytes, each of them their number (section 6.3 of RFC 5652) |
| Cbc.XorBitwise | utils/common.go:98-100 | chaining combines bit by bit: set exactly where the two differ |
| Cbc.DecryptEncrypt | utils/common.go:98-100 | chaining (section 6.2 of NIST SP 800-38A) over any block permutation is undone by its decryption |
| Cbc.EncryptDecrypt | utils/common.go:111-113 | and the other way round |
| Cbc.AesEncrypt | utils/common.go:90-102 | the method with its buffers computes Encrypted |
| Cbc.AesDecrypt | utils/common.go:104-116 | the method with its buffers computes Decrypted, panics included |
| Cbc.AesChained | utils/common.go:90-102 | every crypted block is the block function of its padded block combined with the crypted block before it, the first with the first 16 bytes of the key |
| Cbc.KeysExactly | utils/common.go:90-95 | a key is refused if and only if it has not 16, 24 or 32 bytes |
| Cbc.PanicsExactly | utils/common.go:104-116 | decryption panics if and only if there are no whole blocks, or none, or the last byte exceeds the length |
| Cbc.RoundTrip | utils/common.go:90-116 | decryption undoes encryption for every byte string and every accepted key |
| Cbc.ReencryptsExactly | utils/common.go:104-116 | what decrypts without a panic encrypts back to itself if and only if its padding was well formed (section 6.3 of RFC 5652) |

## Left out

- Calls into Redis, AMQP, etcd and HTTP: only their atomic effect is modelled.
- Lock tokens are whole strings, prefix included; that 16 random bytes do not repeat is the assumption in the step DrawToken. A LockTimeout below one millisecond is not modelled.
- A command is executed at most once: resends inside the Redis client are not modelled.
- LockerObject.Locker.Pause: how long it waits is not measured; the clock may advance by any amount.
- LockerObject.Locker.Run: a handler goroutine that goes on after the timeout is not followed, because its call has returned an error.
- A second Connect while a reconnect loop is alive, which would start a second loop.
- RabbitObject.Connect: dialling, TLS and the declaration of exchanges are one step that works or fails.
- RabbitObject.Disconnect: Wait is observed at one instant; messages a subscriber still receives afterwards start new handlers.
- Handlers that panic or that acknowledge a delivery themselves.
- Resubscribe and Reconnect loop for ever in the source; their models take the number of turns as a parameter, for all numbers.
- The unsynchronized reads of waitConnection, close and connected by other goroutines are atomic reads here.
- The server wrapper's panic, validation and missing-tracer branches, and errors wrapped in other errors.
- Pointers, struct tags, error values, named types and maps whose keys are not strings in toValue; floats are reals, so NaN, infinities and fractions finer than a float are not distinguished.
- The error GetUUID returns for a closed pool, which is never closed; the pool hands out ids in the order they were generated.
- HttpRetry.Do: requires a jitter of at least a millisecond, because the random source panics below that; metrics, tracing and the JSON error code are not modelled.
- The exponential backoff, whose powers are floating point.
- Changes between reading the first configuration and the start of the watch; the error channel and the closing of the change and error channels; ProcessChangeFn.
- ConfigFlow.WatchForService: the sender of a cancel is not followed beyond its send.
- RabbitObject.UnsubscribeSub: the close of the AMQP channel, whose effect is that the range over its deliveries ends, which may happen at any time in the model.
- The AES block function, base64, and the logging, metrics and plumbing around all of the above.
