# Glide, modelled in Dafny

Five stateful parts of the instant-messaging server, each as it is written (classes with fields the methods update,
loops where the code loops) and each proved against a specification that says what the part is for. Public calls are
atomic steps; clocks, randomness, the stores and the network are parameters.

- **Timing wheel** (`Digits`, `FlatTimer`, `TimingWheel`). Any number of nested wheels of any number of slots, with the
  cascade, the `remain` counters that start at 0 and the residual offsets. The class refines a flat table
  "task -> deadline tick": over every history of insertions, cancellations and ticks a task fires exactly once, on its
  deadline, if and only if its offset fits the wheels, the deadline comes and it was not cancelled before. The guard of
  `After` compares with wheels^slots, which is not what the wheels hold; the exact condition under which it protects
  every caller is proved, with an offset the gateway's own wheel admits and then drops.
- **Consistent-hash ring** (`RingSpec`, `RingOwners`, `RingOrder`, `Ring`) over any hash function, collisions included,
  and the 32-bit **MurmurHash3** under it (`Murmur`), undone step by step. A sorted ring is determined by its hash
  classes, in which insertion and removal are last in, first out. Removing a node whose point is covered by a later
  colliding point takes out the other node's point instead. Which histories are safe is decided by the ids and the
  order of the calls alone, in both directions; and with the hash the code uses (`RingHash`) every id that is not four
  bytes long has a four-byte id that makes such a history.
- **Gateway registry** (`Ids`, `Registry`, `Gateway`, `GatewayRuns`): string ids as keys, the client map, the presence
  events, the kick-out on login, and client exit as the mutual recursion between client and gateway, with the gateway
  lock, the once-guards and the closings counted. For which ids a login reported as successful gives the client the
  user's key is proved exactly; user ids with '_' inside can be confused. Any history of calls, keys taken over and
  blank ids included, leaves the objects where the registry's run says.
- **Publish/subscribe channel** (`SeqAlloc`, `ChannelSpec`, `ChannelLaws`, `Channel`, `SharedMessages`): sequence
  numbers in segments shared by any number of instances, the bounded queue, permission-filtered delivery, leaving and
  closing; first with messages as values, then as the objects they are, which `Publish` writes the number into. A numbered message does not decode
  again (`enqueue` stores a pointer to a pointer), so the order holds however objects are shared and republished; but a
  chat message refused by the store or by a full queue can never be published again, and a waiting notification that
  shares its message with a chat publication goes out rewritten.
- **Credential codec** (`Base64`, `Credentials`): PKCS#7 padding, CBC, the IV in front and base64 around, over any
  invertible block cipher and any JSON codec that reads back what it writes; and exactly which texts panic.

Where code and comments differ the model follows the code. `UID` is documented to return "" for temporary clients and
returns the temporary name; `SetGateway` and `SetDevice` compare with the whole string and so leave a longer name that
starts (or ends) with the new one; a lookup past the last ring point answers with the last point and does not wrap.

## Model

| member | source | states |
|---|---|---|
| FlatTimer.ExactFiring | pkg/timingwheel/timingwheel.go:166-243 | over every run, a task inserted anywhere in it has fired iff its offset fits, its deadline has come and it was not cancelled before; it fired on its deadline; else it is pending with that deadline or gone |
| FlatTimer.RunSane | pkg/timingwheel/timingwheel.go:49-54 | in every run pending deadlines lie ahead and no task is both pending and fired |
| TimingWheels.Observe | pkg/timingwheel/timingwheel.go:166-301 | running any history on the wheels, the ticks one task fired on are exactly [deadline] or [], by the same condition |
| TimingWheels.RunAll | pkg/timingwheel/timingwheel.go:255-317 | the log of a whole history on the wheels lists each task fired by the flat timer once, on that tick |
| TimingWheels.LogOfTicks | pkg/timingwheel/timingwheel.go:29-43 | such a log holds one entry per fired task and none for any other |
| TimingWheels.TimingWheel.constructor | pkg/timingwheel/timingwheel.go:66-86 | a new wheel is the empty flat timer; only the top `remain` is full, the others 0, and every hand is on the last slot |
| TimingWheels.TimingWheel.Placement | pkg/timingwheel/timingwheel.go:141-243 | between calls hands are the base-B digits of ticks minus one, counters complete the turn, current slots are empty, every pending task is in the one slot its `s` names, residues are below slotCap |
| TimingWheels.TimingWheel.SlotPut | pkg/timingwheel/timingwheel.go:88-106 | the walk along the circular list ends `off` slots on, or drops the task when off is a full turn or more |
| TimingWheels.TimingWheel.Cancel | pkg/timingwheel/timingwheel.go:49-54 | the task leaves the pending table, nothing fires, all invariants stay |
| TimingWheels.TimingWheel.Call | pkg/timingwheel/timingwheel.go:29-43 | a task due now leaves its slot, also when it is between slots, and is logged once |
| TimingWheels.TimingWheel.TickRemains | pkg/timingwheel/timingwheel.go:166-174 | every counter below the top becomes its closed form for the next tick |
| TimingWheels.RemainStep | pkg/timingwheel/timingwheel.go:166-174 | counting down with reload is B^(k+1) minus the clock modulo B^(k+1), from the zero start on |
| TimingWheels.TimingWheel.CallAndRm | pkg/timingwheel/timingwheel.go:114-123 | the bottom wheel's current slot is emptied; every task in it was due at this tick |
| TimingWheels.TimingWheel.Put | pkg/timingwheel/timingwheel.go:200-215 | a cascading task lands, never dropped, where its deadline belongs or fires now; upper wheels untouched |
| TimingWheels.CascadeSpot | pkg/timingwheel/timingwheel.go:200-215 | the landing slot is ahead of the hand, within the wheel, and the residue is the deadline's lower digits |
| TimingWheels.TimingWheel.Drain | pkg/timingwheel/timingwheel.go:176-189 | a turned wheel's current slot ends empty; tasks only leave the table by firing on their deadline |
| TimingWheels.TimingWheel.Move | pkg/timingwheel/timingwheel.go:176-198 | wheels 0..k advance one tick; the result says whether the clock is a multiple of B^(k+1) |
| TimingWheels.TimingWheel.OnTicker | pkg/timingwheel/timingwheel.go:315-317 | exactly the tasks whose deadline is the new tick fire; all others keep theirs |
| TimingWheels.TimingWheel.Put2 | pkg/timingwheel/timingwheel.go:217-243 | insertion at wheel k schedules the deadline iff that wheel is long enough for it, else drops the task |
| TimingWheels.TimingWheel.Insert | pkg/timingwheel/timingwheel.go:285-301 | the flat timer's insertion: fits, fires at once or is dropped |
| TimingWheels.TimingWheel.After | pkg/timingwheel/timingwheel.go:285-301 | in nanoseconds: returns a task iff the timeout is below interval*wheels^slots and its offset, rounded from truncated milliseconds, is at least 0 or a negative one that `put2` files; the invariant holds afterwards iff it did not file a negative one |
| TimingWheels.TimingWheel.PutNegative | pkg/timingwheel/timingwheel.go:217-243 | a negative offset panics iff there is one wheel or it is below the child's `remain` minus slotCap; otherwise the task lands in the top wheel's current slot, where no task belongs |
| TimingWheels.TimingWheel.NegativeFits | pkg/timingwheel/timingwheel.go:88-91 | the same condition from the tick count alone |
| TimingWheels.OffsetNearest | pkg/timingwheel/timingwheel.go:290 | the offset is the nearest number of ticks in truncated milliseconds, a tie going up |
| TimingWheels.FitsTop | pkg/timingwheel/timingwheel.go:217-243 | the top wheel's length test is the capacity condition, time 0 included |
| TimingWheels.GuardExact | pkg/timingwheel/timingwheel.go:260-291 | for any number of wheels and slots and any interval from 1 ms, every admitted timeout fits at every time iff the longest one's offset is below slots^wheels - slots^(wheels-1) (below slots for one wheel) |
| TimingWheels.LongestAdmitted | pkg/timingwheel/timingwheel.go:260-290 | that offset is wheels^slots for whole milliseconds, one less for an interval of 1 ms |
| TimingWheels.GuardAdmitsDropped | pkg/gate/client_impl.go:15 | the gateway's wheel (3 x 20) admits 8000 ticks and drops them at any time |
| Murmur.Hash | pkg/hash/hash.go:21-70 | the loop, tail switch and finalizer compute the block-wise definition, which the published values anchor |
| Murmur.HashTail | pkg/hash/hash.go:43-59 | the fall-through switch packs the tail little-endian and mixes it |
| Murmur.Rotations | pkg/hash/hash.go:34-56 | the rotations are those by 15 and 13 bits to the left |
| Murmur.PublishedBlock | pkg/hash/hash.go:21-70 | the published MurmurHash3 x86_32 value of "aaaa": one block |
| Murmur.PublishedTail | pkg/hash/hash.go:43-70 | those of "aa" and "abc": a tail alone |
| Murmur.PublishedText | pkg/hash/hash.go:21-70 | that of "Hello, world!": blocks, tail and length |
| Murmur.RepositoryVector | pkg/hash/hash_test.go:20-25 | the value the repository expects of "ABCD" |
| Murmur.RoundInverse | pkg/hash/hash.go:34-40 | one round is invertible in the state and in the block |
| Murmur.AvalancheInverse | pkg/hash/hash.go:63-67 | the finalizer is a bijection |
| Murmur.OneBlockInjective | pkg/hash/hash.go:31-41 | for every seed, inputs that differ at most in one aligned block hash alike iff equal |
| Murmur.TailOnlyInjective | pkg/hash/hash.go:43-59 | the same for inputs that differ at most in the tail |
| Murmur.FourBytesBijective | pkg/hash/hash.go:21-70 | on four bytes the hash is a bijection onto 32-bit words, with the preimage given |
| RingSpec.FirstAboveUnique | pkg/hash/consisten_hash.go:183-206 | in a sorted ring the scan's answer is the only upper bound |
| RingSpec.LookupExact | pkg/hash/consisten_hash.go:116-131 | the node of the first point above the key answers, or that of the last point when none is above it |
| RingSpec.VirtualIdInjective | pkg/hash/consisten_hash.go:134-142 | a node's virtual points have different names |
| RingSpec.VirtualIdExact | pkg/hash/consisten_hash.go:134-136 | a virtual point's name is the id, "_#" and the number in decimal without leading zeros |
| RingSpec.RemoveUndoesAdd | pkg/hash/consisten_hash.go:58-114 | Remove right after Add restores the ring element for element, collisions included |
| RingSpec.ClassesDetermine | pkg/hash/consisten_hash.go:149-181 | a sorted ring is determined by its hash classes |
| RingSpec.DropAllClass | pkg/hash/consisten_hash.go:58-87 | removal takes the last points of each hash class, in any order |
| RingSpec.Monotone | pkg/hash/consisten_hash.go:89-165 | after Add every key is owned by its former owner or the new node |
| RingOwners.RunAccounted | pkg/hash/consisten_hash.go:58-114 | over every run the ring is sorted, holds exactly the recorded hashes, and has (virtual+1) points per node |
| RingOwners.AddedPoints | pkg/hash/consisten_hash.go:95-147 | Add puts in exactly the node at its hash and, per virtual number, a point at the hash of its own name standing for the node |
| RingOwners.RemoveExact | pkg/hash/consisten_hash.go:58-87 | in every reachable ring Remove leaves none of the node's points iff they are all among the last of their hash classes; while every node has its points, iff none is covered by a later colliding point, and then exactly the node's own points go |
| RingOwners.RemoveLocal | pkg/hash/consisten_hash.go:58-131 | then every key not owned by the node keeps its owner |
| RingOwners.AddFaithful | pkg/hash/consisten_hash.go:95-114 | Add keeps every node in possession of all its points |
| RingOwners.AddCovers | pkg/hash/consisten_hash.go:95-165 | after adding b, node a is uncovered iff it was before and the two ids do not collide |
| RingOwners.CollisionOutlives | pkg/hash/consisten_hash.go:63-84 | any hash, any virtual count: after adding a, adding b, removing a, a point of a is left iff a and b collide |
| RingOwners.LoneCollision | pkg/hash/consisten_hash.go:63-131 | without virtual points every lookup then answers with the removed node |
| RingOrder.RunFaithful | pkg/hash/consisten_hash.go:58-131 | over every orderly run every node has all its points, each hash class is the stack of them in the order the nodes came, and lookups answer with a node in `nodeMap` |
| RingOrder.RunHomed | pkg/hash/consisten_hash.go:58-147 | over every run no removed node ever leaves a point behind iff nodes are removed only when no node added later, and still present, collides with them |
| RingOrder.ApartOrderly | pkg/hash/consisten_hash.go:58-147 | in particular when no two nodes of the history collide |
| RingHash.TwinCollides | pkg/hash/consisten_hash.go:12-100 | with the code's seed every id has one four-byte id of the same hash, and only that one |
| RingHash.TwinOutlives | pkg/hash/consisten_hash.go:63-147 | for every id that is not four bytes long, add it, add that twin, remove it: a point of it is still in the ring, for any virtual count |
| RingHash.TwinAnswers | pkg/hash/consisten_hash.go:63-131 | and without virtual points every `Get` answers with the removed node |
| RingHash.SeededValues | pkg/hash/consisten_hash.go:12 | two hashes with the code's seed |
| RingHash.PastTheLast | pkg/hash/consisten_hash.go:116-131 | with nodes "A" and "B" and the code's hash, the key "B" lies past the last point and is answered by B |
| HashRing.ConsistentHash.constructor | pkg/hash/consisten_hash.go:47-55 | the empty ring |
| HashRing.ConsistentHash.FindIndex | pkg/hash/consisten_hash.go:183-206 | the binary search is the linear scan; exist iff the hash is in the ring |
| HashRing.ConsistentHash.AddNode | pkg/hash/consisten_hash.go:149-165 | a fresh slice with the point behind all points of its hash |
| HashRing.ConsistentHash.RemoveIndex | pkg/hash/consisten_hash.go:167-181 | the in-place shift deletes one element and keeps the rest in order |
| HashRing.ConsistentHash.Add | pkg/hash/consisten_hash.go:95-114 | fails iff the id is known, else the ring and map become the specified ones |
| HashRing.ConsistentHash.AddVirtual | pkg/hash/consisten_hash.go:133-147 | inserts and records the virtual points in order |
| HashRing.ConsistentHash.Remove | pkg/hash/consisten_hash.go:58-87 | a known id is removed and never meets an error exit |
| HashRing.ConsistentHash.Get | pkg/hash/consisten_hash.go:89-131 | on the backing array: the node of the first point above the key, or of the last point when none is above it; an error iff the ring is empty |
| HashRing.RunAll | pkg/hash/consisten_hash.go:58-114 | any history on the class ends in the specified state |
| Ids.JoinSplit | pkg/gate/client.go:32-35 | joining the parts of any string gives it back |
| Ids.SplitJoin | pkg/gate/client.go:89-95 | splitting joined separator-free parts gives them back |
| Ids.NewIDParts | pkg/gate/client.go:28-50 | gateway, user and device read back from a new id |
| Ids.SetGatewayIdempotent | pkg/gate/client.go:53-64 | setting the gateway twice is setting it once, for all strings |
| Ids.SetGatewayParts | pkg/gate/client.go:53-64 | user and device stay; the gateway is set iff the former one is not a longer name starting with it |
| Ids.SetGatewayKeepsLongerName | pkg/gate/client.go:53-56 | such a name that is kept |
| Ids.SetDeviceParts | pkg/gate/client.go:67-78 | the same for the device and names ending with it |
| Ids.EqualsExact | pkg/gate/client.go:85-87 | equality means same user and device iff the user parts are equally long |
| Ids.EqualsConflates | pkg/gate/client.go:85-87 | two different users that compare equal |
| Ids.SeparatorInUser | pkg/gate/client.go:28-64 | a user id with '_' inside reads as user and device and never gets a gateway |
| Ids.NewUUID | pkg/gate/id.go:20-42 | the buffer ends up as the dashed hex of the patched bytes |
| Ids.UuidVersion4 | pkg/gate/id.go:27-41 | version 4 and RFC variant digits (section 5.4 of RFC 9562); all other random bits survive |
| Ids.GenTempID | pkg/gate/id.go:12-18 | the composed temporary id |
| Ids.TempIDParts | pkg/gate/id.go:12-18 | it reads back as gateway, "tmp@" and the uuid, no device, and is temporary |
| Ids.TempExact | pkg/gate/client.go:81-83 | an id is temporary iff its user part starts with "tmp@" |
| Ids.MissingParts | pkg/gate/client.go:89-95 | parts that are not there read as blank |
| Registry.RunSound | pkg/gate/gateway.go:156-223 | over every run of additions, renamings, exits and logins the events fold to the registered keys and no client is under two keys |
| Registry.LogInSucceeds | pkg/gate/authenticator.go:276-304 | for every old id, user id and temporary id: a login succeeds iff the client is registered and the user's key is free, or the ids compare equal, or the key is another one and its holder can move |
| Registry.KickOut | pkg/gate/authenticator.go:276-304 | after any successful login the client is the sole holder of the user's key iff that key was not another client's whose id compares equal (then nothing changed); else a different former holder sits under the temporary key and is told, nobody else moved, nobody is lost |
| Registry.PlainNotConfused | pkg/gate/client.go:85-87 | ids of plain users on a plain, named gateway are never confused |
| Registry.SeparatorConfuses | pkg/gate/authenticator.go:280-288 | user "ab" logging in as "a_b" while that is held: reported as success, nothing changes, nobody is told |
| Gateways.UserClient.EnqueueMessage | pkg/gate/client_impl.go:180-193 | refuses iff closed; drops on a full queue; never sends on the closed channel |
| Gateways.UserClient.Write2Conn | pkg/gate/client_impl.go:362-376 | what can be encoded reaches the connection; a failed write, and nothing else, sets the stop, at most once; an encoding error leaves the counter |
| Gateways.UserClient.StopReadWrite | pkg/gate/client_impl.go:378-385 | both stop channels closed exactly once, also after write errors |
| Gateways.UserClient.Finish | pkg/gate/client_impl.go:323-360 | the queue is written out in order, or left when closing immediately, then channel and connection are closed once |
| Gateways.UserClient.Exit | pkg/gate/client_impl.go:308-341 | terminates, does not take the held lock again, unregisters its id with one offline event, writes the queue out unless closing immediately, closes everything once, and expels whoever is filed under that id by then; no-op when closed |
| Gateways.Gateway.ExitClient | pkg/gate/gateway.go:205-223 | the same from the gateway's side |
| Gateways.Leave | pkg/gate/client_impl.go:308-341 | a registered client that leaves is unregistered, with one event, iff its id is not blank; it ends closed either way |
| Gateways.Depart | pkg/gate/client_impl.go:308-341 | when any client leaves, another loses its registration iff it is the one filed under the leaver's id by then |
| Gateways.Authenticate | pkg/gate/authenticator.go:276-304 | a registered client logging in as any user: success under the exact condition; it then has the user's key, and no other, iff the ids were not confused, and the former holder sits under the temporary key, told if it runs and has room |
| Gateways.Gateway.AddClient | pkg/gate/gateway.go:156-171 | for any client: files it under its key with one event; the table stays valid iff the client is in order, belongs here and its id already names this gateway |
| Gateways.Gateway.SetClientID | pkg/gate/gateway.go:176-201 | renames, with an offline and an online event, iff the old key is registered and the new one free; else changes nothing; the client's own id follows its key |
| Gateways.Gateway.EnqueueMessage | pkg/gate/gateway.go:226-262 | submitted iff the client is registered and running and the pool is free; queued if there is room |
| Gateways.Gateway.HandleConnection | pkg/gate/gateway.go:298-326 | a fresh client registered under its temporary id, running, greeted |
| Gateways.Gateway.UpdateClient | pkg/gate/authenticator.go:276-304 | the three steps give the specified table; the moved client, and only it, gets the kick-out message |
| GatewayRuns.Serve | pkg/gate/gateway.go:156-326 | any history of connections, renamings, logins and exits from either side: keys, events and closed connections are those of the registry's run of the calls, and the events fold to the keys |
| GatewayRuns.AfterIsRun | pkg/gate/gateway.go:156-223 | with connections numbered as they come, the table after a history is the registry's run, each client added once |
| GatewayRuns.SameTempID | pkg/gate/id.go:12-24 | two connections that draw the same random bits: when the first leaves, the second is expelled |
| SeqAlloc.RunUnique | pkg/subscription/subscription_impl/chan.go:430-450 | over every interleaving numbers are distinct, increase per instance and lie in a segment the instance owns |
| SeqAlloc.RunConsecutive | pkg/subscription/subscription_impl/chan_test.go:150-163 | one instance on contiguous segments counts up from start+1 |
| ChannelSpec.StepInv | pkg/subscription/subscription_impl/chan.go:129-338 | every call keeps the queue/number/store/closing invariant; the calls that panic are exactly a second Close, nil where it is read from and no check answers before, and a permitted chat publication without a message; they change nothing |
| ChannelSpec.Ordering | pkg/subscription/subscription_impl/chan.go:239-439 | over every run each subscriber gets stored chat messages with strictly increasing numbers; the queue is what was accepted and not yet pushed |
| ChannelSpec.EveryDelivery | pkg/subscription/subscription_impl/chan.go:366-428 | over every run each delivery goes back to one pump step, whose head message reached exactly the subscribers that could read and were named at that moment |
| ChannelSpec.Admission | pkg/subscription/subscription_impl/chan.go:146-211 | subscribing succeeds iff the channel is open and unblocked and the id is a member, needs no ticket or has the right one; it sets that permission only; a newcomer is announced and told the members |
| ChannelSpec.PublishExact | pkg/subscription/subscription_impl/chan.go:239-338 | a message is queued, last, iff its sender may publish, there is room, and it could be numbered and stored |
| ChannelLaws.PermissionBits | pkg/subscription/subscription_impl/perm.go:5-33 | to read, write, administer and be the system are bits 1, 2, 4 and 8 of the permission |
| ChannelLaws.PublishAnswers | pkg/subscription/subscription_impl/chan.go:239-338 | which error answers which publication; a number is used up by every chat message that is given one, stored and queued or not |
| ChannelLaws.UpdateExact | pkg/subscription/subscription_impl/chan.go:129-134 | Update sets blocked, muted and secret and nothing else |
| ChannelLaws.CloseExact | pkg/subscription/subscription_impl/chan.go:283-296 | Close succeeds iff the channel is open, closes it and its queue and removes everybody; what waits, was stored or pushed stays |
| ChannelLaws.ClosedForGood | pkg/subscription/subscription_impl/chan.go:239-296 | over every run: once Close was called nobody receives anything more, every publication and subscription is refused, and only Close, nil options and nil info panic |
| ChannelLaws.UnsubscribeExact | pkg/subscription/subscription_impl/chan.go:213-237 | Unsubscribe succeeds iff the id is a member, removes it and nobody else, and announces it to all if there is room |
| ChannelLaws.Gone | pkg/subscription/subscription_impl/chan.go:213-257 | over every run: after Unsubscribe and until a subscription of the id succeeds it receives nothing, and what it publishes on an open channel is refused as not a member's |
| Channels.Channel.NextSeq | pkg/subscription/subscription_impl/chan.go:430-439 | the allocator's step |
| Channels.Channel.Subscribe | pkg/subscription/subscription_impl/chan.go:46-211 | refuses, panics, updates or adds as specified, with both notifications |
| Channels.Channel.Unsubscribe | pkg/subscription/subscription_impl/chan.go:213-237 | the state machine's step: removes a member and announces it |
| Channels.Channel.Update | pkg/subscription/subscription_impl/chan.go:129-134 | never reopens a closed channel; panics on nil |
| Channels.Channel.Publish | pkg/subscription/subscription_impl/chan.go:239-281 | the checks in order, then the queue |
| Channels.Channel.Enqueue | pkg/subscription/subscription_impl/chan.go:308-338 | number, store, queue; a number taken is not given back and what is written does not decode again; panics without a message |
| Channels.Channel.Pump | pkg/subscription/subscription_impl/chan.go:366-372 | takes the head and pushes it |
| Channels.Channel.Recipients | pkg/subscription/subscription_impl/chan.go:398-428 | the loop reaches exactly the readers the message names |
| Channels.Channel.Close | pkg/subscription/subscription_impl/chan.go:283-296 | the state machine's step: closed, no subscribers, queue closed; panics the second time |
| Channels.RunAll | pkg/subscription/subscription_impl/chan.go:129-439 | any history on the class hands out what the state machine says; if the sequence store only moves forward, every subscriber gets stored chat messages in increasing order |
| SharedMessages.Simulates | pkg/subscription/subscription_impl/chan.go:239-428 | with envelopes and messages as shared objects, over every history: the channel is the channel of values, but for what notifications say |
| SharedMessages.SharedOrdering | pkg/subscription/subscription_impl/chan.go:239-439 | whatever objects are published, however often: each subscriber gets stored chat messages with strictly increasing numbers, as they were accepted |
| SharedMessages.IntactExact | pkg/subscription/subscription_impl/chan.go:308-338 | over every history every message goes out as it was accepted iff no chat message is numbered that a waiting notification points to as well |
| SharedMessages.OwnMessages | pkg/subscription/subscription_impl/chan.go:308-338 | in particular when no two envelopes share a message, republishing included |
| SharedMessages.OneChance | pkg/subscription/subscription_impl/chan.go:308-331 | once a message took a number, stored and queued or not, every later chat publication of it, in any envelope, is refused and changes nothing |
| SharedMessages.NumberedOnce | pkg/messages/message.go:99-114 | over every history no message takes two numbers |
| Base64.DecodeEncode | pkg/gate/authenticator.go:73-81 | decoding undoes encoding and fills the buffer exactly |
| Base64.Alphabet | pkg/gate/authenticator.go:73-74 | the letters in the order of section 4 of RFC 4648 |
| Base64.SameBits | pkg/gate/authenticator.go:73-74 | three bytes and their four six-bit values are the same 24 bits |
| Base64.PublishedEncodings | pkg/gate/authenticator.go:73-74 | "Man", "fo" and "f" as section 10 of RFC 4648 has them |
| Credentials.FitKey | pkg/gate/authenticator.go:30-47 | keys of any length become the next of 16, 24 or 32 bytes, filled with zeros or cut at 32 |
| Credentials.FitIV | pkg/gate/authenticator.go:156-164 | IVs of any length become one block: short ones filled with zeros, long ones cut |
| Credentials.UnpadPad | pkg/gate/authenticator.go:109-153 | unpadding undoes padding; the padding fills whole blocks, is never empty, and each of its bytes is its length |
| Credentials.CbcRoundTrip | pkg/gate/authenticator.go:121-141 | chained decryption undoes chained encryption for every invertible block function |
| Credentials.CbcChaining | pkg/gate/authenticator.go:121-122 | ciphertext block i is the cipher of text block i combined with ciphertext block i-1 (or the IV) |
| Credentials.DecryptEncrypt | pkg/gate/authenticator.go:103-154 | Decrypt undoes Encrypt for every payload, key and IV length |
| Credentials.EncryptBlock | pkg/gate/authenticator.go:103-126 | block i of the output is the cipher under the fitted key of block i of the padded text combined with the block before or the fitted IV, key, IV and padding described byte by byte |
| Credentials.DecryptExact | pkg/gate/authenticator.go:126-154 | Decrypt panics iff there is a partial block; else it undoes the chaining under the fitted key and IV and takes off as many bytes as the last one says |
| Credentials.CredentialsLayout | pkg/gate/authenticator.go:68-76 | the text stands for the IV in the first 16 bytes and the encrypted credentials behind it |
| Credentials.CredentialsRoundTrip | pkg/gate/authenticator.go:49-101 | the whole pipeline round-trips |
| Base64.DecodeExact | pkg/gate/authenticator.go:80-84 | a text decodes iff it is letters and line breaks with no single letter over; the buffer is long enough |
| Credentials.DecryptPanics | pkg/gate/authenticator.go:78-101 | a text panics iff it decodes and its length does not stand for an IV and whole blocks |
| Credentials.ShortTextPanics | pkg/gate/authenticator.go:242-251 | such texts pass the length check: all those of 5 to 21 letters with no single one over |

## Left out

- Interleavings inside a call (`put2` against `move`, the check-then-set in `Exit`, races on `nextSeq`): calls are atomic.
- `Executor` as a goroutine: a called task runs before the next tick.
- Pointer identity of slots and tasks: a slot is named by wheel and index, a task is an id and its fields are maps.
- What the wheels do after a negative offset has been filed, wall-clock time, `TTL`, and floating-point rounding of
  large offsets.
- `Run` on a client that has already run, heartbeats, the read loop, and the configuration carried by credentials.
- 32- and 64-bit overflow of counters, offsets and sequence numbers.
- Callers that change a message object after publishing it, and what happens to it in the clients' own queues.
- That a panic in `Subscribe` on a nil pointer leaves the channel's lock held.
- The channel queue's idle timeout and drain (pkg/subscription/subscription_impl/chan.go:375-393).
- Sequence stores outside the segment contract, such as one that returns (0, 0).
- AES, SHA, MD5 and JSON: functions given from outside. RPC, Kafka, MySQL, Redis, sockets, configuration, logging.
- The online-state table of pkg/messaging/user_state_sub.go, the round-robin selector, handler chains and
  `SubscribeWrap`.
- FlatTimer.ExactFiring: offsets are at least 0.
- TimingWheels.TimingWheel.After: intervals are at least a millisecond; below that the offset is a division by zero
  converted to an integer, which Go leaves to the implementation.
