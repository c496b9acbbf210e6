# Payjoin: mailboxes, gateways, URLs, sessions, failover

A Dafny 4.11 model of the stateful core of rust-payjoin, with proofs of what it keeps over every
run. `dafny verify dfyconfig.toml` checks all of it.

* **Mailbox store** (`Disk`, `MailboxSpec`, `Mailboxes`, `MailboxRuns`, `MailboxSteps`,
  `MailboxReaders`, `MailboxBounds`, `MailboxMail`, `MailboxExpiry`, `MailboxOutcomes`,
  `MailboxShortfalls`): write-once v2 mailboxes on disk, v1 request slots in memory, and the wait
  channels of readers. `MailboxSpec` specifies each operation on an abstract store; the classes have the fields and loops of the code and compute those
  functions; `MailboxRuns` turns every mutex-guarded section, timeout and receive into one atomic step,
  so a run is any interleaving of any number of requests.
* **Gateway cache** (`Gateways`, `GatewayRuns`, `AlpnList`): the hash map and expiry heap as a refinement
  of one expiring map, single-flight probing as a step machine, and the list parser as an exact inverse.
* **URLs** (`UrlText`, `UrlNumbers`, `UrlParse`, `UrlGrammar`, `UrlRoundTrip`, `UrlMutate`, `UrlFields`,
  `UrlJoin`, `UrlRfc`, `UrlObjects`): parser, printer, mutators and `join` as functions, a grammar by the
  text of each component that the parser is proved to accept exactly, and the loops and the mutable
  object proved to compute the functions.
* **Sessions** (`Persist`, `PersistOutcomes`, `Persisters`): the nine kinds of state transition and a
  persister any call of which may fail, against a replay function that is a parameter.
* **Failover, metrics, WebSocket bytes** (`Failover`, `Metrics`, `WsIo`): relay and directory failover
  against a network oracle, pruned counting windows against the full history, byte conservation.

Time is a number read once per step and never runs backwards. Channels are numbered one-shot cells. A
shared receiver's strong count is one for the map plus the number of live waiters. A network, a storage
fault, a random choice or the readiness of a stream is a parameter or any choice.

Where the code and its documentation disagree the model follows the code:

* `url.rs` says a path always starts with `/`. It does not behind a port that fails to parse or behind
  an IPv6 literal; `PathStartsWithSlashIff` says exactly when it does, `BadPortBecomesPath` is an instance.
* `url.rs` says `join` resolves per RFC 3986. For references that are only a path `JoinIsRfcIff` says
  exactly when it does, against a definition of section 5.2.4. It fails in these ways, each shown on a
  family of inputs: going up or a final dot loses the closing slash (`JoinParent`, `FinalDotDiffers`), a
  double dot above the root can lose a slash in front (`ClimbingDiffers`), a rooted reference keeps its
  dot segments (`RootedReferenceDiffers`), and an empty one drops the last segment of the base
  (`EmptyReferenceDiffers`) and its query. A query in a reference lands in the path (`QueryReferenceBreaks`).
* `metrics.rs` says it estimates the unique ids of each window. Every sketch hashes with keys of its
  own, so the weekly and monthly union counts an id once for each day it was seen (`MergedSize`):
  `CountsDistinctIff` says when that is the number of distinct ids, `TwoDaysCountTwice` is an instance.
* `persist.rs` says a fatal error leaves the session closed or in an error state that is handed back.
  `ErrorsTellTheLog` says exactly which rejections break that; `BuiltIff` says that those are exactly
  the transitions no constructor builds.
* `files.rs` expects a v1 sender's receiver never to fail. `V1ChannelLostIff` says exactly when it does,
  `V1ChannelLost` is a run in which it happens.
* `files.rs` asserts at every pruning that no v1 sender is closed. `AssertionBrokenIff` says which step
  breaks that, `ClosedSlotAwaitsCleanup` for how long, and `AssertionFails` is a run.
* A mailbox is meant to live for its time to live. No expired one survives a pruning, re-posts or not
  (`ExpiredNeverSurvives`); `DeletedEarlyIff` says exactly when a pruning deletes one before its time,
  `StaleAppearsIff` which step makes that possible, and `RepostDeletesEarly` is a run.

## Model

| member | source | states |
|---|---|---|
| Disk.XorBuffer | payjoin-mailroom/src/db/files.rs:153-157 | the buffer loop leaves every byte masked with the key byte of its position in the endless cycle, in place; an empty key leaves the buffer alone |
| Disk.XoredInvolution | payjoin-mailroom/src/db/files.rs:153-157 | masking twice is the identity for every key and every length |
| Disk.DiffersByKey | payjoin-mailroom/src/db/files.rs:153-157 | what is written differs from the clear bytes by the key byte of the position, over and over |
| Disk.ReadAfterInsert | payjoin-mailroom/src/db/files.rs:106-151 | whenever an insertion is accepted, a read gives back exactly the posted bytes and the reported creation time |
| Disk.DiskStorage.Get | payjoin-mailroom/src/db/files.rs:89-104 | a read gives creation time and clear bytes of the file, or nothing when there is none |
| Disk.DiskStorage.TryInsert | payjoin-mailroom/src/db/files.rs:106-151 | an existing mailbox is never changed: accepted with its old creation time for identical contents, refused otherwise |
| Disk.DiskStorage.Remove | payjoin-mailroom/src/db/files.rs:159-165 | only this file goes, and the result says whether it was there |
| MailboxStore.Mailboxes.Read | payjoin-mailroom/src/db/files.rs:310-326 | plaintext of a v1 slot first, and taken; otherwise the stored mailbox |
| MailboxStore.Mailboxes.HasCapacity | payjoin-mailroom/src/db/files.rs:328-331 | prunes, then finds room exactly when queue, v1 slots and wait entries together are fewer than the capacity |
| MailboxStore.Mailboxes.WaitV2 | payjoin-mailroom/src/db/files.rs:333-360 | waits exactly when there is room and no v1 slot, on the channel of the entry there is or else on a new one; otherwise the refusal of the specified step |
| MailboxStore.Mailboxes.MaybeCleanupV2Waitmap | payjoin-mailroom/src/db/files.rs:362-368 | the wait entry goes, closing its channel, only when no reader holds it |
| MailboxStore.Mailboxes.PostV2 | payjoin-mailroom/src/db/files.rs:370-392 | stores, queues and notifies as specified, or refuses without a change beyond pruning |
| MailboxStore.Mailboxes.PostV1ReqAndWait | payjoin-mailroom/src/db/files.rs:394-427 | claims the slot unless taken, hands the payload to waiting readers and then clears it |
| MailboxStore.Mailboxes.PostV1Res | payjoin-mailroom/src/db/files.rs:433-439 | frees the slot and sends the response if its sender still listens |
| MailboxStore.Mailboxes.RemoveV1 | payjoin-mailroom/src/db/files.rs:286-289 | the unconditional removal by id at the end of a v1 request, closing whatever channel the slot held |
| MailboxStore.Mailboxes.Prune | payjoin-mailroom/src/db/files.rs:458-482 | wait entries without a reader go, then expired mail |
| MailboxStore.Mailboxes.PruneExpired | payjoin-mailroom/src/db/files.rs:467-479 | the queue loop stops at the first entry not expired and removes exactly the files named before it; the queue length is its termination measure |
| MailboxRuns.ExecKeeps | payjoin-mailroom/src/db/files.rs:241-302 | every step of every request keeps the joint invariant of store, channels, waiting requests and history |
| MailboxRuns.RunKeeps | payjoin-mailroom/src/db/files.rs:241-302 | hence every run does |
| MailboxRuns.NotifyKeeps | payjoin-mailroom/src/db/files.rs:381-389 | removing a wait entry strands nobody because its channel is sent on |
| MailboxRuns.HeldSurvives | payjoin-mailroom/src/db/files.rs:465 | pruning keeps the entry and the channel of every reader still waiting |
| MailboxReaders.NoReaderStranded | payjoin-mailroom/src/db/files.rs:241-263 | in every interleaving a waiting reader holds the very channel stored for its id, or one that already carries a payload accepted for that id; its channel is never closed empty, so the expectation on receive holds |
| MailboxReaders.AcceptedPostServesEveryReader | payjoin-mailroom/src/db/files.rs:370-392 | after an accepted post every reader waiting on that id can receive |
| MailboxReaders.AcceptedOfferServesEveryReader | payjoin-mailroom/src/db/files.rs:416-424 | a v1 request that finds room leaves every reader waiting on its id able to receive |
| MailboxReaders.PendingKeysDisjoint | payjoin-mailroom/src/db/files.rs:246-252 | ids waited on never have a v1 slot or a stored mailbox |
| MailboxReaders.ReadersGetAcceptedPayloads | payjoin-mailroom/src/db/files.rs:241-263 | a reader returns only payloads accepted for the id it asked for |
| MailboxReaders.RejectedOfferGoesNowhere | payjoin-mailroom/src/db/files.rs:408-424 | a second v1 sender is turned away and its payload reaches nobody, although the notification code runs on that path too |
| MailboxReaders.WaitAfterEmptyRead | payjoin-mailroom/src/db/files.rs:341-346 | after an empty-handed read, refusal for capacity means exactly no room and refusal as already read exactly an emptied slot: the payload-present branch is never taken |
| MailboxReaders.PlaintextLeavesOnce | payjoin-mailroom/src/db/files.rs:310-326 | over any run the plaintext of a v1 request leaves memory at most once, and exactly the slots whose plaintext has left are empty |
| MailboxReaders.EmptiedSlotStaysEmpty | payjoin-mailroom/src/db/files.rs:417-424 | an emptied slot stays empty through any further run while it lives |
| MailboxReaders.ReadOfEmptiedSlot | payjoin-mailroom/src/db/files.rs:241-263 | a read that finds it emptied gets the stored mailbox or a refusal, never the plaintext, and never waits |
| MailboxReaders.PrunedWaitsHaveWaiters | payjoin-mailroom/src/db/files.rs:464-465 | after pruning every wait entry has a reader |
| MailboxReaders.CleanedWaitHasWaiter | payjoin-mailroom/src/db/files.rs:362-368 | after a reader's cleanup the entry remains exactly when another reader waits on it |
| MailboxReaders.NoOrphanedSlot | payjoin-mailroom/src/db/files.rs:286-289 | every v1 slot belongs to a request that still waits, or timed out and has not cleaned up |
| MailboxReaders.ResponseReachesSender | payjoin-mailroom/src/db/files.rs:433-439 | a response to a waiting v1 request is accepted and is what that request receives |
| MailboxReaders.ResponseAcceptedIff | payjoin-mailroom/src/db/files.rs:433-439 | the caller is told of success if and only if a request still waits unanswered on that id |
| MailboxOutcomes.PruneLeaves | payjoin-mailroom/src/db/files.rs:458-482 | pruning drops the expired entries at the front of the queue with their files, and exactly the wait entries no reader waits on |
| MailboxOutcomes.ReaderWaits | payjoin-mailroom/src/db/files.rs:241-258 | a reader that finds no v1 slot and no mailbox waits if the sizes of the pruned store leave room: on the channel of the readers already waiting on that id, or else on a new empty one |
| MailboxOutcomes.ReaderRefused | payjoin-mailroom/src/db/files.rs:337-346 | otherwise it is refused: for capacity exactly when the pruned store is full, and else because the plaintext has been read |
| MailboxOutcomes.ReaderTakesPlaintext | payjoin-mailroom/src/db/files.rs:310-316 | the first reader gets the plaintext of a v1 request, which leaves memory with it; nothing else changes |
| MailboxOutcomes.ReaderGetsMail | payjoin-mailroom/src/db/files.rs:318-326 | a stored mailbox is handed to every reader and nothing changes |
| MailboxOutcomes.PostRefusedIff | payjoin-mailroom/src/db/files.rs:370-376 | a v2 post is refused for capacity exactly when the pruned store is full, and told of a conflict exactly when something else is stored |
| MailboxOutcomes.PostAccepted | payjoin-mailroom/src/db/files.rs:370-392 | an accepted post is stored once and queued with its creation time, its readers are sent the payload, and nobody else is concerned |
| MailboxOutcomes.PostRefused | payjoin-mailroom/src/db/files.rs:370-376 | a refused post changes nothing but for the pruning it begins with |
| MailboxOutcomes.OfferRefusedIff | payjoin-mailroom/src/db/files.rs:400-414 | a v1 request is refused for capacity exactly when the pruned store is full, and turned away exactly when its slot is taken |
| MailboxOutcomes.OfferClaims | payjoin-mailroom/src/db/files.rs:406-427 | on a free slot with room it claims the slot on a new channel; its payload goes to the waiting readers and leaves memory, or stays in the slot when there are none |
| MailboxOutcomes.OfferRefused | payjoin-mailroom/src/db/files.rs:402-414 | any other v1 request leaves no trace |
| MailboxOutcomes.ResponseFrees | payjoin-mailroom/src/db/files.rs:433-439 | a response frees the slot of its id and touches nothing else |
| MailboxOutcomes.ReaderEnds | payjoin-mailroom/src/db/files.rs:255-262 | a reader that receives ends with exactly the payload its channel carries |
| MailboxOutcomes.ReaderTimesOut | payjoin-mailroom/src/db/files.rs:255-262 | one that times out ends with a timeout |
| MailboxOutcomes.SenderEnds | payjoin-mailroom/src/db/files.rs:279-291 | a v1 request ends with the response its channel carries or a timeout, and its id is freed either way |
| MailboxOutcomes.SenderBreaksOff | payjoin-mailroom/src/db/files.rs:281-284 | one whose channel is closed under it breaks off there and cleans nothing up |
| MailboxOutcomes.WaiterEndsWithPost | payjoin-mailroom/src/db/files.rs:241-263 | whatever happens between an accepted post and the moment a reader waiting for it receives, the reader ends with exactly the payload posted |
| MailboxBounds.StoreBounded | payjoin-mailroom/src/db/files.rs:328-331 | queue entries, v1 slots and wait entries together, over every run, stay within the larger of capacity and what was on disk at start-up, and so do the files |
| MailboxBounds.ExecSize | payjoin-mailroom/src/db/files.rs:328-331 | no step grows the store beyond its capacity |
| MailboxMail.WriteOnce | payjoin-mailroom/src/db/files.rs:117-127 | until it expires a stored mailbox reads the same through any run, whatever is posted |
| MailboxMail.FirstPostStays | payjoin-mailroom/src/db/files.rs:370-379 | the first accepted post to an id is what its mailbox holds |
| MailboxMail.StoredMailIsRead | payjoin-mailroom/src/db/files.rs:310-326 | and what every later reader of it gets |
| MailboxMail.QueueExactIff | payjoin-mailroom/src/db/files.rs:370-379 | a step keeps the queue sorted, without repeats and in agreement with the disk if and only if it is not an accepted post of the payload already stored |
| MailboxMail.PruneExactWithoutReposts | payjoin-mailroom/src/db/files.rs:458-482 | so on every run without re-posts the queue lists each mailbox once, oldest first, and pruning deletes exactly the overdue ones |
| MailboxExpiry.ExpiredNeverSurvives | payjoin-mailroom/src/db/files.rs:468-479 | on every run, re-posts included, no mailbox past its time to live survives a pruning |
| MailboxExpiry.DeletedEarlyIff | payjoin-mailroom/src/db/files.rs:468-479 | a mailbox with time left is deleted if and only if an older entry of its id is queued and has expired along with everything in front of it |
| MailboxExpiry.PruneExactIff | payjoin-mailroom/src/db/files.rs:458-482 | on every run a pruning deletes exactly the overdue mailboxes if and only if there is no such entry |
| MailboxExpiry.StaleAppearsIff | payjoin-mailroom/src/db/files.rs:370-379 | such an entry comes about by exactly one kind of step: a post accepted for an id that is not stored but still queued |
| MailboxShortfalls.V1ChannelLostIff | payjoin-mailroom/src/db/files.rs:281-289 | a waiting v1 request loses its channel exactly when another request on its id cleans up while it still waits for a response |
| MailboxShortfalls.V1ChannelLost | payjoin-mailroom/src/db/files.rs:281-289 | from any empty store a run leads there |
| MailboxShortfalls.AssertionBrokenIff | payjoin-mailroom/src/db/files.rs:462 | in every reachable state, the one kind of step that breaks the assertion is the timeout of a request not yet answered |
| MailboxShortfalls.ClosedSlotAwaitsCleanup | payjoin-mailroom/src/db/files.rs:286-289 | a slot whose receiver is closed always has a timed-out request that is about to remove it |
| MailboxShortfalls.AssertionFails | payjoin-mailroom/src/db/files.rs:462 | from any empty store a single request that times out reaches a state where the next pruning finds the assertion false |
| MailboxShortfalls.RepostDeletesEarly | payjoin-mailroom/src/db/files.rs:117-124 | from any empty store a run with one re-post leads to a state whose next pruning deletes a mailbox with time left to live |
| Gateways.KnownGateways.Prune | payjoin-mailroom/src/ohttp_relay/gateway_prober.rs:101-112 | popping expired minima leaves exactly the expiring map at that time, heap and map still in agreement |
| Gateways.KnownGateways.Get | payjoin-mailroom/src/ohttp_relay/gateway_prober.rs:83-99 | a policy handed out has not lapsed |
| Gateways.KnownGateways.HasCapacity | payjoin-mailroom/src/ohttp_relay/gateway_prober.rs:114-118 | room is counted after pruning |
| Gateways.KnownGateways.NoCapacityFor | payjoin-mailroom/src/ohttp_relay/gateway_prober.rs:120-129 | zero with room or without a known policy, and otherwise exactly the time to the earliest expiry |
| Gateways.KnownGateways.AllocateInFlight | payjoin-mailroom/src/ohttp_relay/gateway_prober.rs:131-144 | granted exactly when there is room and no live entry, and then exactly that mark is added |
| Gateways.KnownGateways.Insert | payjoin-mailroom/src/ohttp_relay/gateway_prober.rs:146-173 | a known policy is never overwritten; otherwise map and heap both gain the entry and agree |
| Gateways.KnownGateways.CheckBegin | payjoin-mailroom/src/ohttp_relay/gateway_prober.rs:189-202 | an unexpired policy is the answer, a probe in flight is joined on its channel, and a url with neither is marked for a new probe exactly when fewer entries than the capacity are live |
| Gateways.HeapNoLonger | payjoin-mailroom/src/ohttp_relay/gateway_prober.rs:101-112 | the asserted bound of heap length by map size holds whenever the two agree |
| Gateways.RemoveAgrees | payjoin-mailroom/src/ohttp_relay/gateway_prober.rs:108-109 | popping an entry and removing its key keep heap and map in agreement, and the key was a known policy of that expiry |
| GatewayRuns.ExecKeeps | payjoin-mailroom/src/ohttp_relay/gateway_prober.rs:189-219 | every step of every check keeps the joint invariant of table, channels and checks |
| GatewayRuns.SingleFlight | payjoin-mailroom/src/ohttp_relay/gateway_prober.rs:195-200 | in every interleaving at most one probe per url runs |
| GatewayRuns.InFlightSurvives | payjoin-mailroom/src/ohttp_relay/gateway_prober.rs:101-112 | an in-flight mark survives every step, pruning included, but its own prober's insertion |
| GatewayRuns.OwnInsertReplaces | payjoin-mailroom/src/ohttp_relay/gateway_prober.rs:209-212 | that insertion replaces the mark and is never refused |
| GatewayRuns.WaiterIsServed | payjoin-mailroom/src/ohttp_relay/gateway_prober.rs:194-205 | a waiting check always has its prober or its answer |
| GatewayRuns.ReceiveGetsProbedPolicy | payjoin-mailroom/src/ohttp_relay/gateway_prober.rs:204-217 | what a waiter receives is what the probe of its own url returned |
| GatewayRuns.AnswersAreVouched | payjoin-mailroom/src/ohttp_relay/gateway_prober.rs:189-219 | every answer comes from a probe of that url or from the assertion at construction |
| GatewayRuns.CachedAnswerIsFresh | payjoin-mailroom/src/ohttp_relay/gateway_prober.rs:192-193 | an answer from the table has not lapsed |
| GatewayRuns.TableBounded | payjoin-mailroom/src/ohttp_relay/gateway_prober.rs:131-144 | the table never exceeds its capacity, in-flight marks included |
| GatewayRuns.CheckFinds | payjoin-mailroom/src/ohttp_relay/gateway_prober.rs:189-194 | a check whose url has an entry is answered with the unexpired policy or waits for the probe in flight |
| GatewayRuns.CheckProbes | payjoin-mailroom/src/ohttp_relay/gateway_prober.rs:195-200 | one whose url has none starts a probe on a new channel if there is room, and gets no answer if not |
| GatewayRuns.ProberGoesOn | payjoin-mailroom/src/ohttp_relay/gateway_prober.rs:206-217 | a prober puts what its probe returned into the table and onto its channel, and answers with it |
| GatewayRuns.FlightIsShared | payjoin-mailroom/src/ohttp_relay/gateway_prober.rs:204-217 | whatever happens after a probe has returned, the prober and every check on its channel end with what it returned |
| AlpnList.ParseAlpnEncoded | payjoin-mailroom/src/ohttp_relay/gateway_prober.rs:333-351 | the loop computes the parse function, errors included, and terminates |
| AlpnList.ParseIffEncoding | payjoin-mailroom/src/ohttp_relay/gateway_prober.rs:333-351 | a list is returned if and only if the input is its encoding, with no trailing byte |
| AlpnList.CountInFront | payjoin-mailroom/src/ohttp_relay/gateway_prober.rs:335 | the first two bytes are the number of items, the more significant one first |
| AlpnList.ErrorIff | payjoin-mailroom/src/ohttp_relay/gateway_prober.rs:337-348 | trailing data is reported exactly for a complete list with something behind it, and truncation for anything else that is no list |
| UrlText.ParseUintInverts | payjoin/src/core/url.rs:219-229 | numbers written in decimal or hexadecimal read back |
| UrlText.SplitJoin | payjoin/src/core/url.rs:322-333 | joined parts split into themselves |
| UrlRoundTrip.HostReads | payjoin/src/core/url.rs:407-439 | every printed domain, IPv4 or IPv6 host reads back, whatever follows that cannot belong to it |
| UrlRoundTrip.HostIsValid | payjoin/src/core/url.rs:407-480 | an accepted host is a well-formed domain that is no IPv4 address, four octets, or eight groups, and the rest starts at a delimiter unless behind a bracket |
| UrlRoundTrip.Ipv6Reads | payjoin/src/core/url.rs:455-487 | eight printed groups contain no gap and parse to themselves |
| UrlRoundTrip.BadPortStable | payjoin/src/core/url.rs:489-512 | whether a port parses does not depend on what follows the path |
| UrlRoundTrip.TailIs | payjoin/src/core/url.rs:514-526 | cutting off fragment and query loses nothing and leaves no mark to be read again |
| UrlRoundTrip.ParseIsCanonical | payjoin/src/core/url.rs:185-202 | everything the parser accepts becomes a canonical URL |
| UrlRoundTrip.ReparsesIff | payjoin/src/core/url.rs:345-366 | a URL re-parses from its printed form to all the same fields if and only if it is canonical |
| UrlRoundTrip.PrintParseFixpoint | payjoin/src/core/url.rs:185-202 | for every accepted string, printing and parsing again changes no field |
| UrlNumbers.NumberIff | payjoin/src/core/url.rs:441-453 | a text is read as a number exactly when it is the printed number but for letter case, leading zeros and a plus sign, and the number fits |
| UrlGrammar.CharacterClasses | payjoin/src/core/url.rs:389-397 | which characters schemes, domains and ports are made of, and which end a host or a port |
| UrlGrammar.LowerIff | payjoin/src/core/url.rs:403 | a capital in a scheme becomes its small letter, anything else stays |
| UrlGrammar.Ipv4Iff | payjoin/src/core/url.rs:441-453 | exactly four decimal numbers below 256 between dots are an IPv4 address |
| UrlGrammar.GapReads | payjoin/src/core/url.rs:457-469 | groups before a gap come first, groups behind it last, zeros in between |
| UrlGrammar.CompressedIsExpanded | payjoin/src/core/url.rs:455-480 | an address with a gap and the same address written out are the same host |
| UrlGrammar.Ipv6Iff | payjoin/src/core/url.rs:455-487 | exactly eight groups, or at most seven around one gap, are an IPv6 address |
| UrlGrammar.ParseIff | payjoin/src/core/url.rs:185-202 | the parser accepts exactly the strings that spell a URL component by component, and reads each as the URL it spells |
| UrlGrammar.ErrorIff | payjoin/src/core/url.rs:185-202 | which error a string that is no URL gets; never one about the port |
| UrlFields.NoLeadingZero | payjoin/src/core/url.rs:225-226 | numbers are printed without leading zeros |
| UrlFields.Ipv6Printed | payjoin/src/core/url.rs:225-228 | an IPv6 host is printed in brackets with all eight groups between colons |
| UrlFields.Ipv4Printed | payjoin/src/core/url.rs:223-224 | an IPv4 host is printed as four octets between dots |
| UrlMutate.MutationKeepsIff | payjoin/src/core/url.rs:91-140 | for every canonical URL and every setter, query pair or path push, the result re-parses to itself if and only if the arguments are harmless |
| UrlMutate.MutationsKeepParsed | payjoin/src/core/url.rs:235-270 | any sequence of harmless mutations of a parsed URL ends in one whose printed form renders its fields and re-parses to it |
| UrlFields.MutationIsRead | payjoin/src/core/url.rs:235-270 | after a harmless mutation the printed form parses to a URL with just that component changed, and to what was given |
| UrlFields.AppendedPairIsRead | payjoin/src/core/url.rs:130-139 | a pair appended is read back as the last pair of the query, key first, behind all that were there |
| UrlFields.PushedSegments | payjoin/src/core/url.rs:95-100 | a segment pushed comes behind the segments of the path with exactly one slash in between |
| UrlFields.AllPushedSegments | payjoin/src/core/url.rs:91-115 | plain segments pushed are the last segments of the path, in order |
| UrlMutate.PathStartsWithSlashIff | payjoin/src/core/url.rs:240-241 | exactly when a parsed path starts with a slash |
| UrlMutate.BadPortBecomesPath | payjoin/src/core/url.rs:190 | a port that is no number is kept as the path |
| UrlJoin.RelativeJoinClean | payjoin/src/core/url.rs:315-336 | a relative reference gives a path that starts with a slash, has no dot segment and is a fixed point of resolution |
| UrlJoin.ResolveIdempotent | payjoin/src/core/url.rs:322-336 | resolving dot segments twice is resolving them once |
| UrlJoin.UpUndoesDown | payjoin/src/core/url.rs:324-332 | a segment followed by a double dot changes nothing |
| UrlJoin.JoinSibling | payjoin/src/core/url.rs:316-320 | a plain name replaces the last segment of any rooted path |
| UrlJoin.JoinParentSibling | payjoin/src/core/url.rs:316-336 | one level up and a name replace the last two segments |
| UrlJoin.JoinPlainNameTwice | payjoin/src/core/url.rs:299-343 | joining the same plain name twice is joining it once, in all fields |
| UrlJoin.JoinKeepsIff | payjoin/src/core/url.rs:299-343 | without a scheme the joined URL re-parses to itself if and only if the reference has no mark, but for those in segments its own double dots remove |
| UrlJoin.QueryReferenceBreaks | payjoin/src/core/url.rs:315-336 | a reference with a query gives a URL that does not re-parse to itself |
| UrlJoin.IsAbsoluteIff | payjoin/src/core/url.rs:302-306 | a reference is parsed on its own exactly when it has the scheme mark behind something without a slash |
| UrlJoin.JoinAbsolute | payjoin/src/core/url.rs:300-306 | a reference that is a printed URL gives that URL whatever the base |
| UrlJoin.JoinKeepsAuthority | payjoin/src/core/url.rs:308-341 | any other reference keeps scheme, host and port and clears query and fragment |
| UrlRfc.RemoveDotSegmentsIs | payjoin/src/core/url.rs:322-336 | the buffer algorithm of section 5.2.4 of RFC 3986, on a rooted path, as a stack of segments |
| UrlRfc.ResolveIsRfcIff | payjoin/src/core/url.rs:322-336 | the code's stack rule gives the result of section 5.2.4 if and only if the path neither ends in a dot segment with something left, nor climbs above the root with an empty segment left in front |
| UrlRfc.RemoveChangesIff | payjoin/src/core/url.rs:310-314 | taking a rooted reference over unresolved is right if and only if it has no dot segment |
| UrlRfc.JoinIsRfcIff | payjoin/src/core/url.rs:290-343 | for a rooted base and a reference that is only a path, joining gives the target of section 5.2.2 if and only if a condition on the two holds |
| UrlRfc.JoinParent | payjoin/src/core/url.rs:322-336 | going up ends on the parent without its closing slash, which the RFC keeps |
| UrlRfc.ClimbingDiffers | payjoin/src/core/url.rs:324-336 | a double dot above the root costs an empty segment, which the RFC keeps |
| UrlRfc.FinalDotDiffers | payjoin/src/core/url.rs:324-336 | a final dot costs the closing slash, which the RFC keeps |
| UrlRfc.RootedReferenceDiffers | payjoin/src/core/url.rs:310-314 | a rooted reference keeps dot segments that the RFC removes |
| UrlRfc.EmptyReferenceDiffers | payjoin/src/core/url.rs:316-320 | an empty reference drops the last segment of the base, where the RFC keeps the path |
| UrlObjects.ParseScheme | payjoin/src/core/url.rs:385-405 | the character loop computes the scheme, lower-cased, and the rest, or the error |
| UrlObjects.ParseHost | payjoin/src/core/url.rs:407-439 | the search for the end of the host computes the host function |
| UrlObjects.ParseIpv6 | payjoin/src/core/url.rs:455-480 | filling the eight groups from both ends gives left, zeros, right |
| UrlObjects.ParsePort | payjoin/src/core/url.rs:489-512 | the digit loop computes the port function, errors included |
| UrlObjects.ResolveDots | payjoin/src/core/url.rs:322-336 | the stack loop computes the resolved path |
| UrlObjects.ParseUrl | payjoin/src/core/url.rs:185-202 | the object has exactly the parsed fields, or the same error |
| UrlObjects.UrlObject.RebuildRaw | payjoin/src/core/url.rs:345-366 | the printed form becomes the rendering of the other fields, which stay |
| UrlObjects.UrlObject.SetPort | payjoin/src/core/url.rs:235-238 | only port and printed form change, in step |
| UrlObjects.UrlObject.SetFragment | payjoin/src/core/url.rs:247-250 | only fragment and printed form change, in step |
| UrlObjects.UrlObject.ClearQuery | payjoin/src/core/url.rs:267-270 | only query and printed form change, in step |
| UrlObjects.UrlObject.AppendPair | payjoin/src/core/url.rs:130-139 | the pair goes behind the query or becomes it, and the printed form follows |
| UrlObjects.UrlObject.Join | payjoin/src/core/url.rs:299-343 | a fresh object with the joined fields, or the parse error; the receiver is untouched |
| UrlObjects.PathSegmentsMut.Push | payjoin/src/core/url.rs:95-100 | only the path changes while the handle is open |
| UrlObjects.PathSegmentsMut.Drop | payjoin/src/core/url.rs:103-105 | dropping the handle brings the printed form back in step |
| UrlObjects.PushSegments | payjoin/src/core/url.rs:91-115 | a handle from creation to drop appends all segments |
| Persist.SaveKeepsReplay | payjoin/src/core/persist.rs:117-140 | for all nine kinds of transition and every fault: the log is old or old plus the transition's event, a state in hand is its replay, exactly stasis and transient outcomes save nothing, and closed means a terminal event is saved |
| Persist.ErrorsTellTheLog | payjoin/src/core/persist.rs:834-867 | transient errors carry the unchanged state and leave the log alone; fatal ones have saved one event and closed the session or handed back its error state, except for exactly the rejections that drop it |
| Persist.BuiltIff | payjoin/src/core/persist.rs:97-114 | a transition drops its error state if and only if no constructor of its kind builds it |
| Persist.BuiltErrorsTellTheLog | payjoin/src/core/persist.rs:848-867 | for everything that is built, a fatal error means that the session is closed or that its new state is handed back |
| PersistOutcomes.RejectionsAreReported | payjoin/src/core/persist.rs:834-867 | without a storage fault the caller gets an error exactly for a rejection, that rejection's own, and a transient one exactly for one that leaves the session as it is |
| PersistOutcomes.OpenSessionIsHeld | payjoin/src/core/persist.rs:117-140 | a session left open is in the caller's hand as the replay of its log, unless its error state is dropped; a closed one is not |
| PersistOutcomes.ValueIsHandedOut | payjoin/src/core/persist.rs:586-606 | a session that ends well hands out the transition's own value, and no other does |
| PersistOutcomes.LogAfterSave | payjoin/src/core/persist.rs:47-61 | which event is in the log and whether it is closed after any save and any faults, and when an outcome is handed out |
| PersistOutcomes.ResumeRecovers | payjoin/src/core/persist.rs:840-860 | after any save, faults included, resuming gives the state before it or the one behind its event, whichever the log has |
| Persist.SessionFollowsLog | payjoin/src/core/persist.rs:1-33 | over any sequence of transitions, faults and resumptions the handle equals the replay of the log, the log only grows, a terminal event is its last, and nothing is appended once closed |
| Persist.NewSessionFollowsLog | payjoin/src/core/persist.rs:1-33 | from a new session on, the handle equals the replay of the log at any time |
| Persist.ExecKeeps | payjoin/src/core/persist.rs:304-328 | one transition or resumption keeps that |
| Persisters.Persister.SaveEvent | payjoin/src/core/persist.rs:1043-1046 | appends the event unless the call fails before taking effect |
| Persisters.Persister.Close | payjoin/src/core/persist.rs:1055-1058 | marks the session closed unless the call fails before taking effect |
| Persisters.Persister.InMemory | payjoin/src/core/persist.rs:1018-1034 | the in-memory persister starts empty and open, and no call of it fails |
| Persisters.Execute | payjoin/src/core/persist.rs:47-61 | stops at the first failing call, so nothing is closed behind an event that was not reported saved |
| Persisters.SaveTo | payjoin/src/core/persist.rs:318-328 | saving computes the specified log and outcome; the outcome is handed out only after storage succeeded |
| Failover.Choose | payjoin-cli/src/app/v2/ohttp.rs:49-82 | some configured entry that has not failed; none exactly when all have |
| Failover.MailroomManager.FetchOhttpKeys | payjoin-cli/src/app/v2/ohttp.rs:94-133 | each attempt uses a different relay that had not failed, at most one per relay left, and exactly those that fail are marked; without relays every one of them failed on this directory |
| Failover.MailroomManager.UnwrapKeysOrFetch | payjoin-cli/src/app/v2/ohttp.rs:84-92 | configured keys win without any attempt; otherwise a failure means the directory is given up |
| Failover.MailroomManager.TryDirectory | payjoin-cli/src/app/v2/mod.rs:329-343 | one turn of the directory loop delivers keys or leaves strictly fewer directories and a fresh relay list |
| Failover.MailroomManager.ReceiveKeys | payjoin-cli/src/app/v2/mod.rs:326-344 | from empty failure lists no attempt is made twice, so at most distinct directories times distinct relays; it gives up only after every directory misbehaved or failed through every relay |
| Failover.AttemptsBounded | payjoin-cli/src/app/v2/mod.rs:329-344 | attempts without repeats number at most distinct directories times distinct relays, repeated configuration entries or not |
| Failover.MailroomManager.PostViaRelay | payjoin-cli/src/app/v2/mod.rs:1291-1311 | at most one attempt per relay not failed before, all different; exactly the refused ones are marked failed, only the last can be accepted, and it stops for the reason it gives |
| Metrics.PopBefore | payjoin-mailroom/src/metrics.rs:76-91 | dropping first keys below a cutoff leaves exactly the rest of the map |
| Metrics.IntervalsIff | payjoin-mailroom/src/metrics.rs:41-44 | when an interval begins and ends |
| Metrics.KeptKeys | payjoin-mailroom/src/metrics.rs:76-91 | a tier holds the sketches of exactly the active intervals of its retention |
| Metrics.AddThenPruneKeeps | payjoin-mailroom/src/metrics.rs:68-92 | adding to a pruned map and pruning it again gives what pruning leaves of the longer history's sketches |
| Metrics.KeptSize | payjoin-mailroom/src/metrics.rs:21-23 | a tier holds at most its retention plus one intervals |
| Metrics.HllSketches.AddId | payjoin-mailroom/src/metrics.rs:68-92 | both tiers stay what pruning leaves of the full history's sketches, and hold at most 169 hours and 91 days |
| Metrics.HllSketches.HourlyCount | payjoin-mailroom/src/metrics.rs:94-97 | the estimate of this hour's ids in the unpruned history, hashed once each |
| Metrics.HllSketches.DailyCount | payjoin-mailroom/src/metrics.rs:99-102 | the estimate of this day's ids in the unpruned history, hashed once each |
| Metrics.HllSketches.WeeklyCount | payjoin-mailroom/src/metrics.rs:104-107 | the estimate of the last seven unpruned daily sketches merged |
| Metrics.HllSketches.MonthlyCount | payjoin-mailroom/src/metrics.rs:109-112 | the estimate of the last thirty-one unpruned daily sketches merged |
| Metrics.UnionOver | payjoin-mailroom/src/metrics.rs:114-120 | merging the sketches of a key range gives every hash any of them was fed |
| Metrics.WindowIsUnpruned | payjoin-mailroom/src/metrics.rs:114-120 | a window within the retained intervals is the same merged from the pruned and the unpruned map |
| Metrics.MergedSize | payjoin-mailroom/src/metrics.rs:47-49 | a merged window has as many distinct hashes as its intervals have distinct ids, added up |
| Metrics.CountsDistinctIff | payjoin-mailroom/src/metrics.rs:51-54 | that is the number of distinct ids of the window if and only if none returned in a second interval; otherwise it is more |
| Metrics.TwoDaysCountTwice | payjoin-mailroom/src/metrics.rs:104-120 | one id seen on two days: one distinct id in the week, two hashes |
| WsIo.WsIo.PollRead | payjoin-mailroom/src/ohttp_relay/bootstrap/ws.rs:167-216 | a read hands out the next bytes of the binary payloads consumed and nothing else, takes at most one frame and only into an empty buffer, answers exactly pings and closes, and reports ready, pending or failed accordingly |
| WsIo.WsIo.PollWrite | payjoin-mailroom/src/ohttp_relay/bootstrap/ws.rs:223-236 | a ready write emits one frame with all its data, any other none |
| WsIo.WriterFeedsReader | payjoin-mailroom/src/ohttp_relay/bootstrap/ws.rs:163-236 | a reader fed with a writer's frames has handed out a prefix of what was written |

## Left out

- I/O errors of the mailbox directory, and the files under `tmp` that make an insertion atomic.
- Requests dropped before they finish: every wait ends in a receive or a timeout, and probes are not cancelled.
- `next_prune`, the sleep between background prunes: one subtraction.
- The listing and sorting of the directory at start-up: a start state has any exact listing, oldest first.
- The array layout of the standard library's binary heap: it is a bag whose peek is some least entry.
- Probing itself, its lifetimes by status code and `Retry-After`: a probe returns any policy.
- Vectors allocated for n items are taken to have capacity exactly n in the list parser.
- Percent decoding in `query_pairs`, which is another library's, and the `PathSegments` iterator.
- Strings are sequences of characters; byte offsets of non-ASCII text are not modelled.
- References with a query, fragment, scheme or authority of their own are not compared with RFC 3986; `join` reads none of these but an absolute URL.
- The receiver and sender typestates, their validation logic and their replay function, which is a parameter.
- The asynchronous twins of `execute` and `save`: they take the same branches.
- The session driver loops of `mod.rs`: they run until the counterparty acts, and each turn is one transition.
- Concurrent use of one failure list by several clones of the manager: the loops are shown run alone.
- Estimation error of HyperLogLog sketches and collisions of hashes: different pairs of key and id are different hashes, and the keys of a tier are all different.
- End of stream and wakers of the WebSocket adapter: a read may be ready with no bytes.
- HTTP routing, access control, key configuration, telemetry, cryptography, SQL storage, wallet calls and language bindings.
