# ZonDPI engines and service, verified

A Dafny model of the parts of ZonDPI that keep state: the ordered pools, the event loop, the stream
rewriting and the strategy fallback of the ByeDPI engine, the hash table and the packet trackers of the
GoodbyeDPI engine, and the DNS protocol and the profile parser of the Windows service. Code that works
in place is modelled in place, as classes and array methods proved against specification functions.

- `KavlShape` to `KavlErase`: the intrusive AVL tree of `kavl.h`, with its fixed path arrays.
- `KeyOrder`, `KeyCompare`, `PoolKeys`, `Mpool`, `Matching`, `ByteLookup`: keys as words, the byte-level
  comparators, the pool of `mpool.c`, and the lookups of networks and host names, on words and on bytes.
- `EventLog`, `TimerList`, `SlotTable`, `Conev`: the event pool of `conev.c` in its poll build, with
  callbacks as arbitrary sequences of steps and a log of what it did.
- `TlsTracker`, `TlsSplit`, `TlsLoop`, `Desync`: the record tracker, the record splitting and the
  segmented sending.
- `Groups`, `Fallback`: the list of strategy groups and the retry machine over it.
- `HashLinks` to `HashMask`, `Uthash`: the hash table with its two interleaved lists.
- `TrackKeys`, `Tracker`, `Conntrack`: the one-shot trackers of DNS and TCP packets.
- `DnsService`: snapshot, override, restore and recovery of the DNS configuration under crashes.
- `GoodbyeFlags`, `GoodbyeConfig`: reading and printing GoodbyeDPI configurations.

Sockets, poll, clocks, the adapter, the file system and process starts are parameters: each call is
given what the environment answers. Hash functions, gen_offset and the tests of addresses, protocols
and hosts are function parameters. A mask of group bits is the set of the numbers of its groups.

## Findings

- A host name pool can miss hosts: a name that continues another with a character below the dot, such as
  a hyphen, separates the shorter name from its subdomains (`Matching.TwoNames`, `Matching.GapLoses`).
  `Matching.LookHostExact` gives the exact condition for any pool, including those that hold a name and
  one it covers because the gap kept them apart; `Matching.CheckHost` gives one on the names alone.
- Splitting a record that is followed by other bytes can lengthen the message without writing anything
  (`TlsLoop.PastTheEnd`); `TlsLoop.SplitRecords` gives the exact condition.
- A send that is cut short inside a part is counted as sent when the buffer is resumed, so bytes are lost
  (`Desync.CutShort`); `Desync.Sender.Run` computes from the answers of the sockets whether one is.
- A poll that fails after a timeout takes the next timer before its deadline (`Conev.FiresEarly`, `Conev.BothFire`);
  `Conev.EventPool.NextEventTv` gives the exact condition.
- A DNS restore that fails is forgotten, at a stop and at boot (`DnsService.Service.BootRecovery`,
  `DnsService.Service.ForgetsAfterFailedRestore`).

## Model

| member | source | states |
|---|---|---|
| `KavlBalance.HeightBound` | engines/byedpi/upstream/kavl.h:69 | every balanced tree whose node count fits the 32-bit size field has at most 50 levels, by the Fibonacci lower bound, so no search, insertion or deletion path fills its 64 slots |
| `KavlRotate.RotateSingle` | engines/byedpi/upstream/kavl.h:98-107 | a single rotation with its balance updates leaves the same elements in the same order, with right sizes, touching only that subtree |
| `KavlRotate.RotateDouble` | engines/byedpi/upstream/kavl.h:109-128 | the same for the double rotation |
| `KavlSearch.Find` | engines/byedpi/upstream/kavl.h:81-95 | a search reports an element that compares equal with its rank, or the gap whose neighbours compare on either side |
| `KavlSearch.SearchedAll` | engines/byedpi/upstream/kavl.h:81-95 | where the comparison is monotone along the stored order, a gap means that no stored element compares equal |
| `KavlInsert.Insert` | engines/byedpi/upstream/kavl.h:130-172 | insertion keeps every balance and size field right and the order sorted; nothing changes if an equal element is found, otherwise exactly the new element appears at the reported rank; a root that leans to neither side stays |
| `KavlErase.Erase` | engines/byedpi/upstream/kavl.h:174-256 | deletion keeps every balance and size field right; exactly the element that was found leaves the order, and the others keep theirs |
| `KavlErase.EraseFirst` | engines/byedpi/upstream/kavl.h:174-256 | deletion of the first element, as used to empty a tree |
| `KeyCompare.BitCmp` | engines/byedpi/upstream/mpool.c:10-26 | the byte-wise comparison with shifted last bytes is the comparison of bit strings: zero exactly if one is a prefix of the other, otherwise their lexicographic order |
| `KeyCompare.HostCmp` | engines/byedpi/upstream/mpool.c:38-53 | the backward loop over signed characters is the comparison of reversed names: zero exactly if one equals the other or is a suffix of it that starts after a dot |
| `PoolKeys.SmoothPair` | engines/byedpi/upstream/mpool.c:38-53 | the only way in which two stored keys can mislead a search is a host name that opens a gap: one that continues another with a character below the dot |
| `PoolKeys.BitsSmooth` | engines/byedpi/upstream/mpool.c:10-26 | prefix-free bit strings never mislead a search |
| `PoolKeys.AbsorbMinimal` | engines/byedpi/upstream/mpool.c:104-124 | adding keys one by one keeps exactly the keys that no other added key covers |
| `Mpool.Pool.Get` | engines/byedpi/upstream/mpool.c:82-89 | a lookup that finds something finds a key that compares equal, and finds nothing only if there is none |
| `Mpool.Pool.Add` | engines/byedpi/upstream/mpool.c:104-124 | mem_add ends, evicts exactly the stored keys the new one covers, and returns an element that covers it; count stays the size of the tree |
| `Mpool.Pool.Delete` | engines/byedpi/upstream/mpool.c:127-139 | mem_delete removes exactly one key that compares equal, or nothing when none does |
| `Mpool.Pool.Destroy` | engines/byedpi/upstream/mpool.c:142-152 | mem_destroy frees every element once, in order |
| `Matching.Load` | engines/byedpi/upstream/main.c:314-345 | a pool loaded from a list holds exactly the minimal keys of it |
| `Matching.Operations` | engines/byedpi/upstream/mpool.c:104-139 | every run of additions and deletions keeps a bit-keyed pool prefix-free and its count equal to the size of its tree |
| `Matching.Operate` | engines/byedpi/upstream/mpool.c:104-139 | one operation of such a run: an addition absorbs, a deletion removes one key that compares equal if there is one |
| `Matching.CheckIp` | engines/byedpi/upstream/extend.c:241-255 | an address is found exactly if some added network compares equal to it |
| `Matching.CheckHost` | engines/byedpi/upstream/extend.c:224-238 | a host that is recognised was added or lies in a domain that was; where no added name opens a gap, every such host is recognised |
| `Matching.LookHostExact` | engines/byedpi/upstream/extend.c:224-238 | on any pool, a host is recognised if and only if a stored name covers it from which no name above it in the tree diverts the search: a name diverts if it opens a gap after the covering one, or continues it and sorts before the host |
| `Matching.TwoNames` | engines/byedpi/upstream/extend.c:224-238 | for any list of two names and any host the exact answer: a host is missed if and only if it belongs to the second name only and falls into the gap that the first one opens |
| `Matching.GapLoses` | engines/byedpi/upstream/mpool.c:38-53 | every such gap does lose a host |
| `ByteLookup.FindAddress` | engines/byedpi/upstream/extend.c:241-255 | on bytes: an address is found exactly if some network compares equal to it, which is to say that its first bits are those of the network, where no network is longer than an address |
| `ByteLookup.FindHost` | engines/byedpi/upstream/extend.c:224-238 | on bytes: a host that is found belongs to an added name, and where no name continues another with a character below the dot every such host is found |
| `TimerList.SortedAll` | engines/byedpi/upstream/conev.c:249-276 | in a well-formed timer list no entry has a later deadline than one behind it |
| `EventLog.ProperFaithful` | engines/byedpi/upstream/conev.c:197-224 | in every log of polls, hand-outs, additions and closings that the pool can produce, an entry that is handed out was reported by the last poll and since then neither handed out, closed nor added, and before the next poll every reported entry was handed out or closed |
| `Conev.EventPool.SetTimer` | engines/byedpi/upstream/conev.c:249-276 | the timer list stays doubly linked and sorted, holds the entry once with its new deadline, and the other entries with theirs |
| `Conev.EventPool.RemoveTimer` | engines/byedpi/upstream/conev.c:279-297 | exactly this entry leaves the timer list |
| `Conev.EventPool.AddEvent` | engines/byedpi/upstream/conev.c:46-77 | a free slot becomes live with matching index and poll descriptor, and is not part of the current round |
| `Conev.ChainLeast` | engines/byedpi/upstream/conev.c:80-139 | the entries del_event closes are the least set that holds the entry and the live pair of every member, each once |
| `Conev.ChainOfTwo` | engines/byedpi/upstream/proxy.c:481-482 | for two entries paired with each other these are the two |
| `Conev.ChainOfThree` | engines/byedpi/upstream/proxy.c:541-543 | for a cycle of three these are the three |
| `Conev.EventPool.DelEvent` | engines/byedpi/upstream/conev.c:80-139 | del_event ends, closes exactly the entries of the chain of pairs, each once, and keeps slots, links, timers, poll interest and the current round of all others |
| `Conev.EventPool.CloseRing` | engines/byedpi/upstream/conev.c:80-139 | in a pool of rings, closing a member closes its ring and nothing else, and the pool stays one of rings |
| `Conev.EventPool.NextEvent` | engines/byedpi/upstream/conev.c:197-224 | an entry of the round is handed out while there is one, with the events that were reported for it, and a new poll is made only when the last round is over |
| `Conev.EventPool.NextEventTv` | engines/byedpi/upstream/conev.c:299-317 | the first timer goes off if and only if it is due, or nothing is left to hand out and the poll timed out or failed with the type of a timeout left standing; it has the earliest deadline and leaves the round alone; otherwise the events of the round come in turn, then those of a new poll |
| `Conev.EventPool.Act` | engines/byedpi/upstream/conev.c:46-139 | whatever a callback does, nothing is added to the round, an entry leaves the round only by being closed, and closing, adding and arming do what they say |
| `Conev.EventPool.Step` | engines/byedpi/upstream/conev.c:320-342 | one turn of the loop with any callback: the first timer, an entry of the round, one of a new round, or nothing; the log grows by it and by what the callback does, and an entry whose callback fails is closed |
| `Conev.EventPool.LoopEvent` | engines/byedpi/upstream/conev.c:320-342 | over every run, the callbacks are called for exactly the entries that the log has as handed out or fired, one a turn; each that was handed out had been reported by the last poll and since then neither handed out, closed nor added, and before the next poll every reported entry was handed out or closed; the loop does not end while a timer waits unless a poll fails |
| `Conev.FiresEarly` | engines/byedpi/upstream/conev.c:299-317 | a poll that fails after one that timed out takes the next timer, however far its deadline is ahead |
| `Conev.BothFire` | engines/byedpi/upstream/conev.c:299-342 | such a run: of two timers the later one goes off at the deadline of the earlier one |
| `Conev.EventPool.Destroy` | engines/byedpi/upstream/conev.c:142-158 | destroy_pool ends with no live entry and no timer |
| `TlsTracker.RunSplit` | engines/byedpi/upstream/extend.c:481-527 | the tracker's meaning does not depend on how the stream is cut |
| `TlsTracker.IdleMeansWhole` | engines/byedpi/upstream/extend.c:481-527 | the tracker is between records exactly after a whole number of non-empty records |
| `TlsTracker.Tracker.TrySetTlsTimer` | engines/byedpi/upstream/extend.c:481-527 | one chunk moves the tracker as its bytes one by one would, and the timer is armed, cleared or kept accordingly |
| `TlsTracker.Tracker.FeedAll` | engines/byedpi/upstream/extend.c:481-527 | any split of a stream is accepted exactly if the whole is, and position equals size afterwards exactly if the stream is whole records |
| `TlsSplit.PartTls` | engines/byedpi/upstream/packets.c:559-575 | one record becomes two whose payloads join to the old one; nothing is written if there is no room, no such position, or the position is past the declared end, which is nevertheless reported as success |
| `TlsLoop.PiecesJoin` | engines/byedpi/upstream/desync.c:485-516 | the pieces a list of cuts asks for join to the payload |
| `TlsLoop.SplitRecords` | engines/byedpi/upstream/desync.c:485-516 | for every list of parts: the message grows by five bytes for each cut and never past its buffer; the complete records are the pieces asked for if and only if no cut lies past the declared length, and then the whole message is records of the same type and version whose payloads join to the old one |
| `TlsLoop.SplitEvery` | engines/byedpi/upstream/desync.c:485-516 | one part used any number of times, on bytes: the first record is the message up to the position, which counts the header if the part is flagged or negative, each further record the next s bytes, and the last one the rest |
| `TlsLoop.SplitTracked` | engines/byedpi/upstream/extend.c:481-527 | a record that has been split where no piece is empty is whole records for the tracker |
| `TlsSplit.NetworkOrder` | engines/byedpi/upstream/packets.c:559-575 | length fields have the byte of more weight first |
| `TlsLoop.PastTheEnd` | engines/byedpi/upstream/desync.c:485-516 | a part past the end of the record of a longer message writes nothing and lengthens the message by five bytes |
| `Desync.TurnsAhead` | engines/byedpi/upstream/desync.c:549-563 | the segment loop makes the turns that the parts and their repetitions spell out |
| `Desync.Sender.Desync` | engines/byedpi/upstream/desync.c:549-677 | one call sends, from the place where the last one stopped, the bytes it reports, in order; a part counted as sent is not sent again; all sends but the last went through whole, and with wait_send a part that had not been counted is the last thing sent |
| `Desync.Sender.OnTunnel` | engines/byedpi/upstream/proxy.c:678-728 | after each call what is kept for the next one is enough to resume; with a quiet socket the buffer is kept if and only if wait_send is set and a new part was sent |
| `Desync.Sender.Run` | engines/byedpi/upstream/proxy.c:678-728 | over all calls for a buffer: what has been accepted is what the sends got across; with sockets that take each part whole it is always the bytes before the offset, and all of the buffer when it is done with; with quiet sockets and rising positions the sends are the stretches between consecutive positions, one in each call with wait_send and all in one without; for any sockets, how it ends and whether a send is cut short is computed from their answers, and without start-relative parts a buffer that is done with was sent whole if and only if no send was cut short |
| `Desync.CutShort` | engines/byedpi/upstream/desync.c:584-651 | for every buffer with one part, a socket that takes less than the part and then the rest of the buffer ends the sending with bytes missing |
| `Groups.Params.AddGroup` | engines/byedpi/upstream/main.c:597-614 | a group with a number of its own joins the end of the list |
| `Groups.Params.Swop` | engines/byedpi/upstream/extend.c:308-339 | the list is the old one with the two groups exchanged, linked both ways with the right head, and what triggers a group stays at its position |
| `Fallback.FindDp` | engines/byedpi/upstream/extend.c:557-581 | the search ends with the first group in circular order that the connection may use, after masking exactly those before it; null only when no group in the list can be used |
| `Fallback.Scan` | engines/byedpi/upstream/extend.c:359-374 | the next group after a failure is the first that suits in list order, unless the scan ends earlier at an unconditional group with no masked one ahead |
| `Fallback.NextFound` | engines/byedpi/upstream/extend.c:359-374 | in a list whose first group alone is unconditional, a failure that an unmasked group looks for has a next group |
| `Fallback.Rank` | engines/byedpi/upstream/extend.c:375-383 | groups are exchanged exactly under the condition of the code, and then the failing group is in front of the other |
| `Fallback.OnTrigger` | engines/byedpi/upstream/extend.c:342-401 | which group is next, when the failing group changes places with it, how its priority grows and what the cache entry remembers; there is a new connection if and only if it may be made, the next group does not forbid it and some group can be used in the list as it then is, and it uses the first such one; where nothing is exchanged it is enough that the next group fits |
| `Fallback.FewerReconnects` | engines/byedpi/upstream/extend.c:342-401 | each reconnect leaves another group masked, so a connection reconnects fewer times than there are groups |
| `Fallback.Live` | engines/byedpi/upstream/extend.c:342-401 | over every run of any number of connections the list stays whole, each connection counts exactly the reconnects that were answered, and no connection reconnects as often as there are groups |
| `Fallback.OnResponse` | engines/byedpi/upstream/extend.c:450-478 | a response that sets off a detection goes the way of a failure of the kind that the first group set off looks for, with the same exact condition for a new connection |
| `Fallback.ConnectHook` | engines/byedpi/upstream/extend.c:597-634 | a connection with no group yet starts with group, mask and detection of the cache entry of its address, and then uses the first unmasked group that may serve it, or is dropped |
| `Fallback.Reconnect` | engines/byedpi/upstream/extend.c:198-221 | a reconnect succeeds if and only if the connection can be made and some group can be used; it moves to another group, which is unmasked, and keeps the mask |
| `HashMask.MaskAndShift` | engines/goodbye/upstream/src/utils/uthash.h:431-434 | the mask by a power of two less one and the shift by its exponent are remainder and quotient |
| `HashMask.BucketOf` | engines/goodbye/upstream/src/utils/uthash.h:431-434 | the masked hash is the bucket |
| `HashMask.IdealLength` | engines/goodbye/upstream/src/utils/uthash.h:844-846 | the ideal chain length is the number of items per bucket, rounded up |
| `Uthash.CountsAddUp` | engines/goodbye/upstream/src/utils/uthash.h:517-564 | the bucket counts add up to the number of items |
| `Uthash.HashTable.Find` | engines/goodbye/upstream/src/utils/uthash.h:154-174 | find agrees with the map of the table's contents |
| `Uthash.HashTable.Add` | engines/goodbye/upstream/src/utils/uthash.h:397-416 | an addition keeps both linked structures whole and extends the map by one entry; the buckets are doubled exactly if the item fills its bucket up to the threshold and expanding has not been given up |
| `Uthash.HashTable.Expand` | engines/goodbye/upstream/src/utils/uthash.h:832-882 | doubling moves every item into its new bucket and keeps the chains linked both ways; the items beyond the ideal length are counted, each bucket gets a threshold in proportion to its length, and two ineffective doublings in a row are the last |
| `Uthash.HashTable.Delete` | engines/goodbye/upstream/src/utils/uthash.h:451-478 | a deletion keeps both linked structures whole and takes one entry out of the map |
| `TrackKeys.UdpKeyOne` | engines/goodbye/upstream/src/dnsredir.c:62-89 | two UDP keys are equal exactly if family, address and port are; IPv4 and IPv6 keys never collide |
| `TrackKeys.TcpKeyOne` | engines/goodbye/upstream/src/ttltrack.c:42-95 | the same for the TCP keys with both addresses and ports |
| `Tracker.Table.Cleanup` | engines/goodbye/upstream/src/dnsredir.c:166-184 | the records are swept when the interval has passed since the last time and not before, only those older than the interval go, and afterwards every record is under 60 seconds old |
| `Tracker.Table.Insert` | engines/goodbye/upstream/src/dnsredir.c:136-163 | a record is added exactly if its key has none |
| `Tracker.Table.Take` | engines/goodbye/upstream/src/dnsredir.c:121-134 | a lookup hands out the record of its key and removes it |
| `Conntrack.DnsOutgoing` | engines/goodbye/upstream/src/dnsredir.c:200-217 | a packet that can be tracked is tracked, or refused because an answer is outstanding for its flow; a record is not replaced before it is 30 seconds old |
| `Conntrack.DnsIncoming` | engines/goodbye/upstream/src/dnsredir.c:219-244 | a reply is answered from the one outstanding record of its flow, or goes unanswered because there is none |
| `Conntrack.TcpIncoming` | engines/goodbye/upstream/src/ttltrack.c:183-194 | an incoming packet with ports leaves a record for its flow, and does not replace one that is under 30 seconds old |
| `Conntrack.TcpOutgoing` | engines/goodbye/upstream/src/ttltrack.c:196-220 | an outgoing packet is answered from the record of the mirrored flow, which is then gone |
| `Conntrack.DnsRun` | engines/goodbye/upstream/src/dnsredir.c:200-244 | over every run with a clock that never goes back, each reply is answered with the record outstanding for its flow, which is the last one stored and not yet told and is under 60 seconds old; a record under 30 seconds old is neither replaced by another packet nor missed by a reply, and a packet is refused only while one is outstanding |
| `Conntrack.TcpRun` | engines/goodbye/upstream/src/ttltrack.c:183-220 | the same for the mirrored flows of the TCP tracker |
| `Conntrack.ToldOnce` | engines/goodbye/upstream/src/dnsredir.c:219-244 | a record that has been told is not outstanding for a later answer |
| `DnsService.Service.ApplyDns` | core/dns/src/lib.rs:772-811 | the snapshot is stored before the adapter is changed, so a crash at any point loses nothing if the adapter had the user's configuration |
| `DnsService.Service.RestoreDns` | core/dns/src/lib.rs:814-823 | a restore puts the user's configuration back and then clears the file; one that fails changes nothing |
| `DnsService.Service.BootRecovery` | core/dns/src/lib.rs:827-854 | recovery gives the user's configuration back; the file being cleared in any case, the configuration survives if and only if the restore worked or was not needed |
| `DnsService.Service.StartEngine` | service/windows-service/src/engine_mgr/mod.rs:323-440 | a start succeeds exactly if its environment lets it; one that fails gives the user's configuration back, and one that succeeds leaves the override exactly when it is called for |
| `DnsService.Service.StartAuto` | service/windows-service/src/engine_mgr/mod.rs:224-300 | a start succeeds exactly if the preferred or the fallback engine can be started, leaves the preferred one running if it can, and the adapter as that engine calls for |
| `DnsService.Service.StopEngine` | service/windows-service/src/engine_mgr/mod.rs:444-461 | a stop gives the user's configuration back |
| `DnsService.Service.Live` | service/windows-service/src/engine_mgr/mod.rs:94-110 | over any number of service lives, each cut off after any number of effects, either the adapter has the user's configuration or the file holds it, where restores work |
| `DnsService.Service.Recover` | core/dns/src/lib.rs:827-854 | the next start that is not cut short restores the user's configuration and clears the file |
| `DnsService.Service.ForgetsAfterFailedRestore` | service/windows-service/src/engine_mgr/mod.rs:444-461 | without that assumption it is lost: a restore that fails at a stop is forgotten, and the next start takes the override for the user's configuration |
| `GoodbyeFlags.ClassifyIs` | service/windows-service/src/engine_adapter/goodbye.rs:65-235 | an argument is a flag if and only if it is that flag's text |
| `GoodbyeFlags.NumberRound` | service/windows-service/src/engine_adapter/goodbye.rs:75-85 | a printed number is read back if it fits its field and refused if not |
| `GoodbyeConfig.FromProfile` | service/windows-service/src/engine_adapter/goodbye.rs:54-249 | reading a profile is reading its arguments in turn, or an error for another engine |
| `GoodbyeConfig.Mode1Means` | service/windows-service/src/engine_adapter/goodbye.rs:179-185 | what -1 sets, on top of any configuration |
| `GoodbyeConfig.Mode5Means` | service/windows-service/src/engine_adapter/goodbye.rs:186-197 | what -5 sets and clears |
| `GoodbyeConfig.LaterModesMean` | service/windows-service/src/engine_adapter/goodbye.rs:198-232 | what -6 to -9 set |
| `GoodbyeConfig.LimitsMean` | service/windows-service/src/engine_adapter/goodbye.rs:75-177 | which numbers each flag accepts |
| `GoodbyeConfig.ValueMissing` | service/windows-service/src/engine_adapter/goodbye.rs:75-177 | a flag whose value is missing changes nothing, but for the automatic TTL, which has a default |
| `GoodbyeConfig.ToCommandArgs` | service/windows-service/src/engine_adapter/goodbye.rs:257-334 | the command line that is pushed together is the printed configuration |
| `GoodbyeConfig.TtlExclusive` | service/windows-service/src/engine_adapter/goodbye.rs:97-124 | a fixed and an automatic TTL are never both set |
| `GoodbyeConfig.RoundTrip` | service/windows-service/src/engine_adapter/goodbye.rs:54-334 | printing any configuration that came from arguments and reading it gives it back; printed without the DNS redirect it lacks exactly the four DNS fields |

## Left out

- Desync.Sender.Run: the bytes are those of the stream; the decoys, TTL changes and urgent bytes that some parts send around them are not modelled.
- TlsLoop.SplitEvery: gen_offset gives the part the same answer on each repetition, which it does unless the position is random; SplitRecords holds for any answers.
- Desync.Sender.Desync: the buffer has been rewritten before the first call, and gen_offset gives a part the same position in every call.
- Matching.CheckHost: that no added name opens a gap is sufficient for every list and necessary for lists of two; for longer lists the hosts that are missed depend on the shape of the tree, and LookHostExact has the condition.
- Fallback.Live: groups have distinct bits, which the int shift in add_group gives for up to 32 groups.
- Uthash.HashTable.Add: the 32-bit wrap of the bucket count and running out of memory are not modelled.
- DnsService.Service.Live: adapter operations are atomic and nothing else edits the adapter.
- GoodbyeConfig.FromProfile: lower-casing is that of ASCII letters, which the two engine names consist of.
- byte_cmp, dump_cache and load_cache, and the expiry and prefix merging of the address cache.
- The epoll build of the event pool, the buffer lists, and the free and iterator functions of kavl.
- Sorting, selection and bloom filters of uthash.
- Recognition of DNS packets, which is a parameter of the trackers.
- Boot recovery that resumes the override, and the Windows adapter commands.
- The edits of HTTP requests and of the SNI, which rewrite a field at a computed place and keep no state.
- Fake packets and automatic TTL, which act on the network and not on the stream.
- SOCKS parsing, one request at a time with no state between requests.
- The process supervisor, IPC and the user interfaces, which pass on what the parts above decide.
- Uninitialised entries of the event pool are zero in the model.
