# A verified model of the DHT engine

The engine is a BitTorrent DHT node and network scanner: it keeps a catalogue
of every node it has heard of, runs iterative Kademlia lookups, paces its
queries per host, decodes and stores bencoded values, keeps a routing table,
schedules a scan of the whole network and records what it finds. Each of its
components runs as a sequence of steps on one event loop. This project models
those steps in Dafny and proves what holds over every run of them.

| file | what it models |
|---|---|
| `ProbeTable.dfy`, `NodeCatalog.dfy` | the catalogue: slots, free list, eviction, and an open-addressing index with backward-shift deletion that agrees with a plain map |
| `NodeId.dfy` | 160-bit identifiers: XOR distance, shared prefixes, random IDs with a prefix |
| `LookupState.dfy`, `Lookup.dfy` | the iterative lookup: exact bookkeeping, stopping rule, report, termination |
| `Support.dfy` | per-address token buckets and the contact budget |
| `RpcManager.dfy` | transactions and send queues: exactly-once reports, order, pacing |
| `Bencode.dfy`, `BencodeContext.dfy`, `BencodeLaws.dfy`, `BencodeDecoder.dfy` | the grammar, its independence of context, round trips both ways, and the cursor decoder and printer |
| `Bep44.dfy` | BEP 44 storage and the byte-exact echo of stored values |
| `RoutingTable.dfy` | k-buckets, replacement caches, re-keying |
| `CrawlSchedule.dfy`, `Crawler.dfy` | the scan's queues over the catalogue: no node lost or scheduled twice, feature checks bounded |
| `KeyedListModel.dfy` | the list diff and the view that replays it |
| `ClientShares.dfy`, `History.dfy` | the bounded history, its thinning and the merging of client shares |
| `Crc32c.dfy` | table-driven CRC-32C against bit-at-a-time division |
| `Endpoint.dfy`, `Options.dfy`, `Numbers.dfy` | endpoints, optional values and a few facts about numbers and sets, shared by all |

Objects whose methods update their fields are classes here too; a container a
method mutates is a `seq`, `set` or `map` field. Whole runs are methods that
apply any number of arbitrary events (`Catalog.FindAfterAnyRun`,
`Lookups.AnswerEverything`, `Rpc.AnyRun`, `Routing.AnyRun`, `Crawlers.AnyRun`) or recursive
functions over a list of operations (`RateLimits.PruningIsInvisible`,
`Histories.RecordIsFaithful`).

How the source's primitives are rendered:

- `double` is `real`; the clock is a parameter that does not go back, and is
  constant within one event.
- Hashes, random choices, SHA-1, Ed25519, whether the OS takes a datagram,
  whether a host is busy and whether the RPC layer is backlogged are arbitrary
  functions or nondeterministic choices.
- `& mask` on the hash table is `% size`; sizes are proved to be 1024 times a
  power of two. The 18-byte key is an address and a port.
- An endpoint holds a normalised address, as the source's constructor sees to
  (`dhtcore/include/dhtcore/Endpoint.h:31`): an IPv6 address is never an IPv4
  one in disguise. Qt's conversion to IPv4 is taken to succeed for v4-mapped
  addresses alone; scope ids are left out.
- 32-bit generations and stamps and 16-bit transaction ids wrap explicitly. A
  catalogue reference is proved to be current exactly while its allocation
  lives up to 2^32 - 1 allocations, with a run that shows it fail beyond. The
  crawler holds those very references, slot and generation, and asks the
  catalogue which are current; its guarantees are for runs of fewer than
  2^32 - 1 allocations, for that reason.
- What the crawler writes through `at()` into fields the catalogue does not use
  is a map of its own, kept in step with the catalogue's entries.
- The callbacks of `RpcManager` may hand over any number of further queries.
- `std::sort` and `std::partial_sort` are an insertion sort; a `std::map` is a
  sorted sequence.
- A CRC register is 32 booleans.

One promise holds only under a condition, and the model states it: a stale
reference stays stale only within one cycle of generations
(`Catalog.RefIsCurrentWhileItsAllocationLives`,
`Catalog.StaleRefCanComeBack`).

## Model

| member | source | states |
|---|---|---|
| `ProbeTable.EmptyCellExists` | dhtcore/src/NodeCatalog.cpp:224-234 | a table with more cells than slots has an empty cell, which is why every probe ends |
| `ProbeTable.InsertKeeps` | dhtcore/src/NodeCatalog.cpp:242-249 | filing a slot in the first empty cell of its path keeps every cell from each home to its slot occupied |
| `ProbeTable.StaysPutMeans` | dhtcore/src/NodeCatalog.cpp:264-269 | the comparison of ring positions asks exactly whether the hole lies off the cell's path from its home |
| `ProbeTable.ShiftStart` | dhtcore/src/NodeCatalog.cpp:251-259 | taking a slot out leaves one hole, and only paths of cells not yet scanned cross it |
| `ProbeTable.ShiftPass` | dhtcore/src/NodeCatalog.cpp:260-266 | a cell whose path avoids the hole may be passed over |
| `ProbeTable.ShiftMove` | dhtcore/src/NodeCatalog.cpp:264-269 | any other cell may move into the hole, which moves to where the cell was |
| `ProbeTable.ShiftStop` | dhtcore/src/NodeCatalog.cpp:261-271 | once the scan meets an empty cell, emptying the hole restores the invariant for all remaining slots |
| `ProbeTable.DeletingStep` | dhtcore/src/NodeCatalog.cpp:260-270 | one turn of backward-shift deletion, whichever branch it takes, keeps all of this and comes nearer to an empty cell |
| `Catalog.KeysIdentifyEndpoints` | dhtcore/src/NodeCatalog.cpp:189-217 | two endpoints share an entry if and only if they are equal |
| `Catalog.KeyReadsBack` | dhtcore/src/NodeCatalog.cpp:189-217 | filing an endpoint and reading its entry back gives the endpoint |
| `Catalog.NormalizedKey` | dhtcore/src/Endpoint.cpp:16-30 | an endpoint is filed under the sixteen bytes it was made from, whether or not they spell an IPv4 address |
| `Catalog.RefIsCurrentWhileItsAllocationLives` | dhtcore/src/NodeCatalog.cpp:160-164 | a reference reads as current exactly when its slot holds an allocation a whole number of generation cycles from its own; within 2^32 - 1 allocations, exactly while its own allocation lives |
| `Catalog.StaleRefCanComeBack` | dhtcore/src/NodeCatalog.cpp:352-385 | a run that shows it: one place shared in turn by two endpoints, until the very first reference, its entry long dropped, reads as current again |
| `Catalog.ProbeMiss` | dhtcore/src/NodeCatalog.cpp:224-234 | a probe that meets an empty cell has proved that no live entry has the key |
| `Catalog.SizeIsSumOfCounts` | dhtcore/src/NodeCatalog.cpp:166-174 | the size is the sum of the five per-state counts |
| `Catalog.LiveAndFreeCoverTheArray` | dhtcore/src/NodeCatalog.cpp:284-299 | live and free slots together are the whole array, with no overlap |
| `Catalog.IndexAfterRelease` | dhtcore/src/NodeCatalog.cpp:342-350 | freeing a slot takes exactly its key out of the plain map |
| `Catalog.IndexAfterFill` | dhtcore/src/NodeCatalog.cpp:365-385 | filling a free slot adds exactly its key to the plain map |
| `Catalog.NodeCatalog.Clear` | dhtcore/src/NodeCatalog.cpp:120-130 | an empty catalogue whose generation counter carries on |
| `Catalog.NodeCatalog.SetCap` | dhtcore/src/NodeCatalog.cpp:132-135 | the cap is clamped and nothing is evicted |
| `Catalog.NodeCatalog.Trim` | dhtcore/src/NodeCatalog.cpp:137-146 | evicts live entries one by one while over the cap, at most so many; the plain map loses exactly their keys |
| `Catalog.NodeCatalog.SetState` | dhtcore/src/NodeCatalog.cpp:166-174 | one entry changes state, the counts follow, the plain map does not change |
| `Catalog.NodeCatalog.NoteSigns` | dhtcore/include/dhtcore/NodeCatalog.h:145-147 | what callers write through at() for eviction to go by changes nothing else |
| `Catalog.NodeCatalog.FindIndex` | dhtcore/src/NodeCatalog.cpp:224-234 | the cell of the key, or none exactly when no live entry has it |
| `Catalog.NodeCatalog.Find` | dhtcore/src/NodeCatalog.cpp:236-240 | what the plain map from address and port to slot says |
| `Catalog.NodeCatalog.InsertIndex` | dhtcore/src/NodeCatalog.cpp:242-249 | the slot joins the index and every other slot stays reachable |
| `Catalog.NodeCatalog.EraseIndex` | dhtcore/src/NodeCatalog.cpp:251-272 | only that slot leaves the index |
| `Catalog.NodeCatalog.BackwardShift` | dhtcore/src/NodeCatalog.cpp:256-272 | empties a cell and leaves every other slot reachable from its home |
| `Catalog.NodeCatalog.GrowTable` | dhtcore/src/NodeCatalog.cpp:274-282 | the table doubles and indexes exactly the live slots |
| `Catalog.NodeCatalog.Allocate` | dhtcore/src/NodeCatalog.cpp:284-299 | the slot freed last or a new one at the end |
| `Catalog.NodeCatalog.PickVictim` | dhtcore/src/NodeCatalog.cpp:301-340 | of the slots looked at, the one to give up first: worst state, then longest without a sign of life |
| `Catalog.NodeCatalog.Release` | dhtcore/src/NodeCatalog.cpp:342-350 | one entry goes, its slot becomes free, every other entry is as it was |
| `Catalog.NodeCatalog.Upsert` | dhtcore/src/NodeCatalog.cpp:352-385 | the slot the plain map gives, or a new entry; at most one victim goes, every other entry keeps its slot and allocation, the new entry takes the victim's slot, and the size never exceeds the larger of its old value and the cap |
| `Catalog.FindIsExact` | dhtcore/src/NodeCatalog.cpp:236-240 | the plain map has a key if and only if a live entry does, and gives the one slot that has it |
| `Catalog.FindAfterAnyRun` | dhtcore/src/NodeCatalog.cpp:224-385 | after any operations, find gives the slot of the one live entry with that address and port or none if there is none; sizes and counts agree and the table is at most half full |
| `NodeIds.CloserIsDistance` | dhtcore/src/NodeId.cpp:62-71 | byte-by-byte comparison is the order of XOR distances as 160-bit numbers, and distance identifies an ID |
| `NodeIds.PrefixLengthBits` | dhtcore/src/NodeId.cpp:52-60 | the shared prefix, bit for bit: equal before it ends, different where it ends, and full exactly for equal IDs |
| `NodeIds.PrefixLengthIs` | dhtcore/src/NodeId.cpp:52-60 | conversely, agreeing on n bits and then differing makes the prefix length n |
| `NodeIds.LongerPrefixIsCloser` | dhtcore/src/NodeId.cpp:52-71 | sharing a longer prefix with the target means being strictly closer to it |
| `NodeIds.CommonPrefixLength` | dhtcore/src/NodeId.cpp:52-60 | the loop computes the prefix length |
| `NodeIds.IsCloser` | dhtcore/src/NodeId.cpp:62-71 | the loop decides by XOR distance |
| `NodeIds.RandomWithPrefix` | dhtcore/src/NodeId.cpp:73-88 | the result shares at least the prefix with the base, exactly that many bits when asked for |
| `LookupState.MeasureIsNat` | dhtcore/src/Lookup.cpp:67-122 | the measure that every settled answer lowers is never negative, and the list is never long enough for the query cap to be reached |
| `LookupState.UnfinishedIsWaiting` | dhtcore/src/Lookup.cpp:67-147 | after picking, a lookup that may not finish has something outstanding |
| `LookupState.FinishingReport` | dhtcore/src/Lookup.cpp:274-301 | at finishing time the report holds the K nearest of all that answered, or all of them; with K reported nothing in flight or slow is nearer than the last, and an unasked candidate is nearer only if a budget was spent; with fewer, every candidate was asked and settled |
| `LookupState.ReportIsStrict` | dhtcore/src/Lookup.cpp:274-301 | distances in a report grow strictly but for equal IDs |
| `Lookups.LowerBound` | dhtcore/src/Lookup.cpp:43-48 | the position after every strictly nearer candidate |
| `Lookups.TrimFar` | dhtcore/src/Lookup.cpp:50-54 | when one over the limit, the farthest unasked candidate goes and nothing else |
| `Lookups.FiledKeeps` | dhtcore/src/Lookup.cpp:33-58 | filing and trimming keep order, distinct endpoints, exact counters and every candidate already asked |
| `Lookups.CanFinish` | dhtcore/src/Lookup.cpp:124-147 | decides exactly whether the stopping rule holds |
| `Lookups.CollectClosest` | dhtcore/src/Lookup.cpp:274-301 | the first K responders in list order, and the hops of the nearest |
| `Lookups.Lookup.Insert` | dhtcore/src/Lookup.cpp:33-57 | a candidate is filed exactly when the lookup runs, it is not ourselves, it is usable and its endpoint is new |
| `Lookups.Lookup.AddCandidate` | dhtcore/src/Lookup.cpp:33-58 | filing may step the lookup; the invariants hold and no measure rises |
| `Lookups.Lookup.Start` | dhtcore/src/Lookup.cpp:60-65 | from here on an unfinished lookup always has something outstanding, however often it is started |
| `Lookups.Lookup.Pick` | dhtcore/src/Lookup.cpp:79-96 | picked are exactly the unasked candidates before some place in the list, nearest first, none with K responders ahead, within both budgets; each endpoint at most once |
| `Lookups.Lookup.HandOver` | dhtcore/src/Lookup.cpp:98-114 | one query is handed over, and its callbacks may run before this returns |
| `Lookups.Lookup.SendAll` | dhtcore/src/Lookup.cpp:98-114 | every picked query is handed over once, unless the lookup finishes meanwhile |
| `Lookups.Lookup.Step` | dhtcore/src/Lookup.cpp:67-122 | afterwards the lookup has finished or has something outstanding and may not finish |
| `Lookups.Lookup.OnSent` | dhtcore/src/Lookup.cpp:149-155 | the slow clock of that query, and of no other, starts |
| `Lookups.Lookup.DemoteSlow` | dhtcore/src/Lookup.cpp:157-172 | exactly the queries past the slow mark give up their slot |
| `Lookups.Lookup.CheckSlow` | dhtcore/src/Lookup.cpp:157-176 | the invariants hold, and a query past the mark brings the lookup nearer its end |
| `Lookups.Lookup.Settle` | dhtcore/src/Lookup.cpp:178-205 | one waiting candidate has answered or failed, the counters follow and the measure falls |
| `Lookups.Lookup.OnReply` | dhtcore/src/Lookup.cpp:178-231 | only an answer that is waited for counts; then the measure falls, a responder is counted, and every usable node it lists is taken in |
| `Lookups.Lookup.Finish` | dhtcore/src/Lookup.cpp:274-307 | one report, of the first K responders |
| `Lookups.AnswerEverything` | dhtcore/src/Lookup.cpp:33-307 | however events interleave, a lookup whose queries are all answered somehow finishes and reports exactly once |
| `RateLimits.RateLimiter.Allow` | dhtcore/src/Support.cpp:343-356 | lets a query through exactly when the address has a token |
| `RateLimits.RateLimiter.Prune` | dhtcore/src/Support.cpp:425-431 | forgets old buckets; no address has more or fewer tokens for it |
| `RateLimits.PruneKeeps` | dhtcore/src/Support.cpp:425-431 | a bucket old enough to be forgotten is full |
| `RateLimits.PruningIsInvisible` | dhtcore/src/Support.cpp:343-356 | over every run, a limiter pruned at any times answers as one never pruned |
| `RateLimits.WindowedHit` | dhtcore/src/Support.cpp:343-356 | one more hit keeps hits in order and, between any two of one address, within the burst plus what the time between earned |
| `RateLimits.HitsInWindow` | dhtcore/src/Support.cpp:343-356 | from any time to any later one, an address is hit at most the burst plus what that time earns |
| `RateLimits.DefaultLimitFigures` | dhtcore/include/dhtcore/RpcManager.h:34-38 | with the default limit, at most 4 queries to one address in any second and 22 in any ten, whenever they begin |
| `ContactBudgets.ContactBudget.SetLimit` | dhtcore/src/Support.cpp:370-382 | a new limit starts with one second's allowance |
| `ContactBudgets.ContactBudget.Allows` | dhtcore/src/Support.cpp:398-404 | always for a live endpoint, else while the balance covers one contact |
| `ContactBudgets.ContactBudget.Record` | dhtcore/src/Support.cpp:406-417 | a new contact is charged for, a live one is not |
| `ContactBudgets.ContactBudget.Prune` | dhtcore/src/Support.cpp:419-423 | forgets exactly the endpoints that are no longer live |
| `ContactBudgets.PruningIsInvisible` | dhtcore/src/Support.cpp:370-423 | over every run, a budget pruned at any times gives the same answers and counts the same contacts |
| `ContactBudgets.StepPays` | dhtcore/src/Support.cpp:384-417 | a new contact costs exactly one, nothing else costs anything |
| `ContactBudgets.NewContactsAreBounded` | dhtcore/src/Support.cpp:384-417 | new contacts in any window are at most one second's worth plus what the window earns, and the balance never goes below zero |
| `ContactBudgets.LimitStartsSound` | dhtcore/src/Support.cpp:370-382 | turning a limit on establishes what the bound needs |
| `Rpc.FreeIdExists` | dhtcore/src/RpcManager.cpp:41-50 | with fewer than 65536 pending, some transaction id is free |
| `Rpc.Issue` | dhtcore/src/RpcManager.cpp:52-58 | a new query is in hand and nowhere else |
| `Rpc.Enqueue` | dhtcore/src/RpcManager.cpp:67-84 | a query in hand joins its host's queue and is only there |
| `Rpc.Dequeue` | dhtcore/src/RpcManager.cpp:169-173 | the head of a queue comes in hand |
| `Rpc.Depart` | dhtcore/src/RpcManager.cpp:105-117 | a query in hand becomes pending under a free id |
| `Rpc.Post` | dhtcore/src/RpcManager.cpp:119-145 | a query in hand becomes one whose Throttled report is posted |
| `Rpc.SettleQuery` | dhtcore/src/RpcManager.cpp:188-241 | a pending query is reported, for the first and last time |
| `Rpc.Unpost` | dhtcore/src/RpcManager.cpp:134-145 | a posted report is made, for the first and last time |
| `Rpc.CancelEverything` | dhtcore/src/RpcManager.cpp:243-251 | what waited or was pending is cancelled, what was posted stays posted |
| `Rpc.FifoServe` | dhtcore/src/RpcManager.cpp:169-173 | the head of a queue is older than the rest and newer than all that left for that host |
| `Rpc.OrderServed` | dhtcore/src/RpcManager.cpp:147-186 | serving a host keeps the order exact, no stored queue empty and the total right |
| `Rpc.SendsArePaced` | dhtcore/include/dhtcore/RpcManager.h:34-38 | from any time to any later one, at most the burst plus what that time earns is sent to one address |
| `Rpc.InOnePlace` | dhtcore/src/RpcManager.cpp:52-251 | a query is in exactly one of pending, queues, posted and reports, or cancelled and in none |
| `Rpc.ReportsAreExact` | dhtcore/src/RpcManager.cpp:105-145 | no query is reported twice, and Throttled goes exactly to those the OS never took |
| `Rpc.RpcManager.NextTransactionId` | dhtcore/src/RpcManager.cpp:41-50 | an id no pending query uses; the search ends |
| `Rpc.RpcManager.NewQuery` | dhtcore/src/RpcManager.cpp:52-84 | handed to the OS at once exactly when nothing holds the host back, refused exactly when there is no room to wait, else queued |
| `Rpc.RpcManager.Send` | dhtcore/src/RpcManager.cpp:105-126 | pending if the OS takes it, else posted as Throttled; either way one departure |
| `Rpc.RpcManager.Wait` | dhtcore/src/RpcManager.cpp:67-84 | joins the host's queue, or is refused exactly when that or all queues together are full |
| `Rpc.RpcManager.ServeNext` | dhtcore/src/RpcManager.cpp:161-179 | at most one query for the host at the front; it goes to the back while it has more |
| `Rpc.RpcManager.Drain` | dhtcore/src/RpcManager.cpp:147-186 | at most one query per host in a pass, and unless something ran out every waiting host with a token is served |
| `Rpc.RpcManager.HandleReply` | dhtcore/src/RpcManager.cpp:188-208 | matches exactly a pending id from the endpoint asked, and then reports that query once |
| `Rpc.RpcManager.Expire` | dhtcore/src/RpcManager.cpp:210-241 | exactly the pending queries past their deadline time out, whatever their callbacks hand over meanwhile; every other query stays where it was and none is cancelled |
| `Rpc.RpcManager.RunPosted` | dhtcore/src/RpcManager.cpp:134-145 | the oldest posted report is made and every other query stays where it was |
| `Rpc.RpcManager.CancelAll` | dhtcore/src/RpcManager.cpp:243-251 | nothing pending or queued is left |
| `Rpc.RpcManager.SetHostLimit` | dhtcore/src/RpcManager.cpp:35-39 | a new limiter with full buckets, and its own record |
| `Rpc.AnyRun` | dhtcore/src/RpcManager.cpp:41-251 | after any events, changes of the limit included: until everything is cancelled every query is in exactly one place, and cancelled ones are in none; none is reported twice, queues, order, total and timer agree, queries of one host leave in order, and in any stretch of time sends to one address are paced by the limit in force |
| `BencodeContext.ValueAgrees` | dhtcore/src/Bencode.cpp:114-121 | the same bytes at another place decode to the same value with spans and warnings moved |
| `BencodeContext.SpanIsExact` | dhtcore/src/Bencode.cpp:16-21 | the raw span of a decoded value is exactly the bytes it consumed |
| `BencodeLaws.ValueRoundTrip` | dhtcore/src/Bencode.cpp:114-311 | an encoded value decodes, anywhere in the input, to itself |
| `BencodeLaws.DecodeOfEncode` | dhtcore/src/Bencode.cpp:87-95 | a value no deeper than the limit decodes from its encoding with no error and no warning |
| `BencodeLaws.IntegersAccepted` | dhtcore/src/Bencode.cpp:145-184 | a canonical integer decodes if and only if it is in [-2^63, 2^63 - 1] |
| `BencodeLaws.AnySpellingAccepted` | dhtcore/src/Bencode.cpp:145-184 | an integer however spelled, leading zeros and negative zero included, decodes if and only if its value is in that range |
| `BencodeLaws.AcceptedIsSpelled` | dhtcore/src/Bencode.cpp:145-184 | an accepted integer is a sign or none, digits and an end, and its value is what they spell |
| `BencodeLaws.ValueReencodes` | dhtcore/src/Bencode.cpp:114-311 | a value decoded with no warning re-encodes to the bytes it came from |
| `BencodeLaws.EncodeOfDecode` | dhtcore/src/Bencode.cpp:87-95 | an input decoded with no error and no warning re-encodes to itself |
| `BencodeDecoder.Decoder.ParseInteger` | dhtcore/src/Bencode.cpp:145-184 | the cursor decoder agrees with the grammar on integers, errors and positions included |
| `BencodeDecoder.Decoder.ParseString` | dhtcore/src/Bencode.cpp:186-209 | the same for byte strings and their length prefixes |
| `BencodeDecoder.Decoder.ParseValue` | dhtcore/src/Bencode.cpp:114-143 | the same for any value, with its raw span |
| `BencodeDecoder.Decoder.ParseList` | dhtcore/src/Bencode.cpp:211-230 | the same for lists |
| `BencodeDecoder.Decoder.ParseDict` | dhtcore/src/Bencode.cpp:232-266 | the same for dictionaries, duplicate and unsorted keys included |
| `BencodeDecoder.Run` | dhtcore/src/Bencode.cpp:87-95 | the whole input decodes as the grammar says, with every warning up to an error, trailing bytes being warned about |
| `BencodeDecoder.EncodeInto` | dhtcore/src/Bencode.cpp:274-311 | appends exactly the canonical encoding |
| `Bep44.SpanStandsAlone` | dhtcore/src/Bencode.cpp:16-21 | the span of any part of a decoded value decodes alone, to that part moved to the start |
| `Bep44.ArgumentStandsAlone` | dhtcore/src/DhtNode.cpp:350-366 | the bytes of v in a put datagram are a complete bencoded value |
| `Bep44.ReplyEchoes` | dhtcore/src/Krpc.cpp:120-132 | in a decoded response, the span of v is the pre-encoded bytes it was built with |
| `Bep44.ItemNode.MakeRoom` | dhtcore/src/Support.cpp:172-198 | when full, exactly the item put longest ago goes |
| `Bep44.ItemNode.Expire` | dhtcore/src/Support.cpp:267-273 | exactly the items put two hours ago or more go |
| `Bep44.ItemNode.PutImmutable` | dhtcore/src/Support.cpp:200-218 | stored under the hash of its bytes and dated; nothing else changes but that the item put longest ago goes when full |
| `Bep44.ItemNode.PutMutable` | dhtcore/src/Support.cpp:220-253 | accepted exactly past the cas check and with no lower sequence number; a higher one replaces, the same one only refreshes, no other item is touched but that the one put longest ago goes when full |
| `Bep44.ItemNode.HandlePut` | dhtcore/src/DhtNode.cpp:350-436 | accepted only with a valid token and a value of storable size, and an unsigned one exactly then; a signed one exactly when it has all it needs, its signature holds over the very bytes sent, and cas and sequence number allow it; what is stored are the bytes that were sent |
| `Bep44.ItemNode.PutSigned` | dhtcore/src/DhtNode.cpp:380-415 | accepted exactly if complete, signed by its key over these bytes and past cas and sequence number |
| `Bep44.ItemNode.HandleGet` | dhtcore/src/DhtNode.cpp:322-348 | whatever is stored under the target is echoed byte for byte, a signed item with its key, sequence number and signature |
| `Bep44.ReplyCarries` | dhtcore/src/Krpc.cpp:120-132 | a string or integer put in a response is found by its decoder |
| `Bep44.PutThenGet` | dhtcore/src/DhtNode.cpp:322-436 | an accepted value, signed or not, canonical or not, comes back as the span of v in the decoded get reply |
| `Routing.EachIdOnce` | dhtcore/src/RoutingTable.cpp:27-30 | an identifier is only ever in its own bucket, once, as node or as replacement |
| `Routing.AllIdsOnce` | dhtcore/src/RoutingTable.cpp:326-341 | across the whole table no identifier occurs twice |
| `Routing.SidesConserve` | dhtcore/src/RoutingTable.cpp:141-161 | the two sides of a split bucket are what was there |
| `Routing.SplitKeeps` | dhtcore/src/RoutingTable.cpp:141-161 | a split keeps the table well formed and holds exactly the same identifiers |
| `Routing.SplitKeepsStuck` | dhtcore/src/RoutingTable.cpp:136-139 | a full bucket that cannot be split stays so |
| `Routing.OnlyNode` | dhtcore/src/RoutingTable.cpp:54-70 | a node is the only one with its identifier |
| `Routing.RoutingTable.Split` | dhtcore/src/RoutingTable.cpp:141-161 | the split table, well formed |
| `Routing.RoutingTable.Insert` | dhtcore/src/RoutingTable.cpp:93-134 | rejected exactly for our own ID or a taken address; otherwise placed, replacing at most a bad node, or cached only where no place was to be had |
| `Routing.RoutingTable.MakeSpace` | dhtcore/src/RoutingTable.cpp:99-113 | the loop ends, with room or with a bucket that cannot be split, and with the same nodes |
| `Routing.RoutingTable.Place` | dhtcore/src/RoutingTable.cpp:103-132 | the node gets a free place, a bad node's place or goes to the cache |
| `Routing.RoutingTable.AddToCache` | dhtcore/src/RoutingTable.cpp:124-131 | at most K, and whoever goes was heard from no later than any that stay |
| `Routing.RoutingTable.HeardFrom` | dhtcore/src/RoutingTable.cpp:32-91 | the table stays well formed; a new node, a refreshed one and one re-homed are present with exactly the particulars due, a node is cached only where there was no place, an ID answering elsewhere does not displace a node that still answers, and a fresh node is turned away exactly for our own ID, a bad endpoint or a taken address |
| `Routing.RoutingTable.Meet` | dhtcore/src/RoutingTable.cpp:54-91 | the same once nobody else goes by this endpoint: turned away exactly if a node that still answers has the ID, or none has it and the address is taken |
| `Routing.RoutingTable.QueriedBy` | dhtcore/src/RoutingTable.cpp:163-170 | exactly that node's last query changes, and nobody comes or goes |
| `Routing.RoutingTable.Failed` | dhtcore/src/RoutingTable.cpp:172-204 | exactly one of: the node is marked; the replacement heard from last is there in its place; it is gone; a failed replacement is forgotten |
| `Routing.RoutingTable.Promote` | dhtcore/src/RoutingTable.cpp:190-197 | the replacement is there and the node is not; nobody else comes or goes |
| `Routing.RoutingTable.Closest` | dhtcore/src/RoutingTable.cpp:242-262 | the nearest eligible nodes in strict order, and every other one is farther |
| `Routing.RoutingTable.RandomIdInBucket` | dhtcore/src/RoutingTable.cpp:303-307 | the ID maps back to the bucket it was made for |
| `Routing.RoutingTable.Rebuild` | dhtcore/src/RoutingTable.cpp:326-341 | well formed around the new ID, nobody invented, and every good node and replacement kept unless its bucket is full or, with one node per address, another node has its address |
| `Routing.TakenByAnother` | dhtcore/src/RoutingTable.cpp:97-98 | an address that is taken is taken by another node |
| `Routing.AnyRun` | dhtcore/src/RoutingTable.cpp:27-341 | after any events the table is well formed: buckets by shared prefix, at most K nodes and K replacements, at most 160 buckets, no ID twice, never our own |
| `CrawlSchedule.TakingRefiles` | dhtcore/src/Crawler.cpp:328-342 | taking from the queues in turn loses no living reference and makes none |
| `CrawlSchedule.AskKeeps` | dhtcore/src/Crawler.cpp:408-434 | a query goes out to an entry that had none out |
| `CrawlSchedule.AnswerKeeps` | dhtcore/src/Crawler.cpp:436-447 | an answer brings its reference back in hand |
| `CrawlSchedule.NeverDropped` | dhtcore/src/Crawler.cpp:397-399 | what would be dropped from the rounds, unroutable or with no node to ask it through, is never found in them |
| `CrawlSchedule.PopDeferredKeeps` | dhtcore/src/Crawler.cpp:368-376 | the first entry set aside comes in hand |
| `CrawlSchedule.LinkedAfterTrim` | dhtcore/src/Crawler.cpp:107-107 | the references that are current after evictions are those whose entries stayed |
| `CrawlSchedule.LinkedAfterUpsert` | dhtcore/src/Crawler.cpp:705-707 | a new entry's reference is current and none before it was the same |
| `CrawlSchedule.LinkedFind` | dhtcore/src/Crawler.cpp:705-707 | the catalogue finds an endpoint exactly if the crawler has an entry for it |
| `CrawlSchedule.ListedHasNode` | dhtcore/src/Crawler.cpp:702-702 | an entry can be asked through the family it is filed under if and only if it could through the family it was listed in |
| `CrawlSchedule.AskFeatureKeeps` | dhtcore/src/Crawler.cpp:583-628 | the next feature query stays within the eight an entry may get |
| `CrawlSchedule.AfterCheckPays` | dhtcore/src/Crawler.cpp:640-689 | an answer that counts settles its check or costs one of its two tries |
| `CrawlSchedule.AnswerFeatureKeeps` | dhtcore/src/Crawler.cpp:630-694 | an answer keeps flag, queue and count of queries in step |
| `CrawlSchedule.AllocateKeeps` | dhtcore/src/Crawler.cpp:700-723 | a new entry is in no queue yet |
| `Crawlers.Crawler.TakeDue` | dhtcore/src/Crawler.cpp:328-342 | the first living entry if it is due; only stale references are dropped |
| `Crawlers.Crawler.PickNext` | dhtcore/src/Crawler.cpp:382-393 | a queue is looked at only when nothing is due in those before it; first contact exactly from those never asked |
| `Crawlers.Crawler.TakeNext` | dhtcore/src/Crawler.cpp:382-396 | what is taken is current and can be reached; with nothing taken, no queue has anything due at its head |
| `Crawlers.Crawler.Ask` | dhtcore/src/Crawler.cpp:408-434 | the entry has one query out, and there always is a node to send it through |
| `Crawlers.Crawler.DispatchNext` | dhtcore/src/Crawler.cpp:382-406 | one entry asked or set aside, none ever dropped; or nothing due |
| `Crawlers.Crawler.DispatchDeferred` | dhtcore/src/Crawler.cpp:363-380 | entries set aside are asked, kept or dropped as stale; at most the budget is sent |
| `Crawlers.Crawler.TryDeferred` | dhtcore/src/Crawler.cpp:368-377 | one of them |
| `Crawlers.Crawler.OnReply` | dhtcore/src/Crawler.cpp:436-495 | a living entry goes back to exactly the queue its answer calls for, with state and failures to match |
| `Crawlers.Crawler.FileReply` | dhtcore/src/Crawler.cpp:441-483 | retry, revisit or the silent queue |
| `Crawlers.Crawler.Learn` | dhtcore/src/Crawler.cpp:700-723 | entered exactly when it can be asked, is not ourselves and is new, and then filed among those never asked exactly when reachable |
| `Crawlers.Crawler.Upsert` | dhtcore/src/Crawler.cpp:705-714 | the catalogue's entry there was, or a new one, possibly in the place of another |
| `Crawlers.Crawler.Trim` | dhtcore/src/Crawler.cpp:107-107 | the references of evicted entries are current no more and every other entry is as it was |
| `Crawlers.Crawler.NoteSign` | dhtcore/src/Crawler.cpp:469-469 | the stamp of the last answer or listing, and nothing else, is written where eviction looks, and the schedule does not notice |
| `Crawlers.Crawler.Amend` | dhtcore/src/Crawler.cpp:457-482 | an entry's state changes here and in the catalogue alike |
| `Crawlers.Crawler.QueueFeatures` | dhtcore/src/Crawler.cpp:546-553 | queued once, and only with checks left |
| `Crawlers.Crawler.DispatchFeatures` | dhtcore/src/Crawler.cpp:555-581 | at most the budget is sent and no entry is lost |
| `Crawlers.Crawler.TryFeature` | dhtcore/src/Crawler.cpp:561-579 | asked only if answering, with checks left and no query out; put back if its host is busy; the flag cleared exactly when there is nothing to ask |
| `Crawlers.Crawler.OnFeatureReply` | dhtcore/src/Crawler.cpp:630-698 | the check is settled or tried again, and the entry is queued again exactly while checks are left |
| `Crawlers.Crawler.Pace` | dhtcore/src/Crawler.cpp:97-105 | halved when this machine is late, grown by a quarter and one while batches fill, within bounds |
| `Crawlers.Crawler.DispatchUpTo` | dhtcore/src/Crawler.cpp:119-124 | no more than the limit |
| `Crawlers.Crawler.Tick` | dhtcore/src/Crawler.cpp:93-125 | at most a batch of queries goes out |
| `Crawlers.AnyRun` | dhtcore/src/Crawler.cpp:93-723 | after any events within one cycle of generations, whatever families there are nodes for: the reference of every slot the catalogue has in use is exactly once in the five queues and the queries out if the address can be reached and nowhere if not, FeatureQueued is exactly being queued or asked, and no entry has been sent more than eight feature queries |
| `KeyedLists.KeyedListModel.ReplaceRows` | src/KeyedListModel.h:33-94 | for all lists the rows end as the new ones and a view replaying the notifications reaches the same keys; with unique keys no row in both is removed or inserted, and none is moved unless the shared rows changed order |
| `KeyedLists.KeyedListModel.RemoveGone` | src/KeyedListModel.h:40-54 | exactly the unwanted rows go, each notification a whole run of them, and the rest keep their order |
| `KeyedLists.KeyedListModel.PlaceRow` | src/KeyedListModel.h:59-82 | the row is in place, the rows below are those there were without it, and the notification says what happened |
| `KeyedLists.MovesOnlyWhenReordered` | src/KeyedListModel.h:10-16 | with unique keys, moves are announced if and only if the shared rows changed their relative order |
| `KeyedLists.NoMovesKeepOrder` | src/KeyedListModel.h:10-16 | removals and insertions around the kept rows leave them in order |
| `KeyedLists.ReplayMore` | src/KeyedListModel.h:33-94 | a view that followed one replacement is ready for the next |
| `Histories.MergeSamples` | dhtcore/src/History.cpp:88-121 | the span-weighted mean of every metric, unknown values not counting, and of every client's share |
| `Histories.BothSums` | dhtcore/src/History.cpp:88-121 | merging keeps the weighted sum of a known metric and of a client's share |
| `ClientShares.Merge` | dhtcore/src/History.cpp:107-119 | the two loops over clients give the specified list, names listed twice included |
| `ClientShares.MergedConserves` | dhtcore/src/History.cpp:106-119 | each client's weighted share is conserved, one missing on a side having had none |
| `Histories.MergedExtends` | dhtcore/src/History.cpp:88-105 | a merged sample extends a segment as the two would |
| `Histories.PairedShorter` | dhtcore/src/History.cpp:132-150 | thinning shortens unless every sample follows a gap, and then changes nothing |
| `Histories.PairedConserves` | dhtcore/src/History.cpp:130-147 | thinning keeps every segment between gaps with its end, span and weighted sums, of metrics and of clients' shares |
| `Histories.AddedFits` | dhtcore/src/History.cpp:123-152 | at most 720 samples, the newest 360 untouched |
| `Histories.AddedConserves` | dhtcore/src/History.cpp:123-152 | segments are conserved, unless nothing could be merged: then exactly the oldest sample, a segment of its own, is dropped |
| `Histories.RecordIsFaithful` | dhtcore/src/History.cpp:123-152 | however long the session, the history holds exactly the latest segments of the whole record, the missing ones being as many as samples dropped |
| `Histories.RecordKeeps` | dhtcore/src/History.cpp:88-152 | order, contiguity between gaps and the range of every metric are kept |
| `Histories.RecordKeepsNewest` | dhtcore/src/History.cpp:130-147 | the newest 360 samples are those recorded |
| `Histories.History.Add` | dhtcore/src/History.cpp:123-128 | the specified history after one more sample |
| `Histories.History.Thin` | dhtcore/src/History.cpp:130-152 | the older part paired, or the oldest sample dropped |
| `Histories.History.Record` | dhtcore/src/History.cpp:123-152 | a whole session gives the specified history |
| `Crc32c.StepsLinear` | dhtcore/src/Crc32c.cpp:9-19 | bit steps are linear over exclusive or |
| `Crc32c.ByteFirst` | dhtcore/src/Crc32c.cpp:25-31 | mixing a byte in first and stepping eight times is shifting its bits in one by one |
| `Crc32c.LookupIsEightBits` | dhtcore/src/Crc32c.cpp:25-31 | one table lookup does the work of eight bits |
| `Crc32c.MakeTable` | dhtcore/src/Crc32c.cpp:9-19 | entry i is eight steps of i |
| `Crc32c.Checksum` | dhtcore/src/Crc32c.cpp:25-31 | the table-driven loop computes the bit-at-a-time CRC-32C of section 12.1 of RFC 3720 for every message |

## Left out

- User interface, formatting, exports, charts and signal plumbing, apart from the list diff: no deep property.
- Sockets, host names, threads, port mapping: input and output through the operating system.
- Statistics (size estimates, confidence intervals, Sybil report, lookup medians): their correctness is statistical.
- Lookup results other than nodes: peers, items and peer sightings collected along the way, and the announce and put that may follow a lookup.
- Error texts: a decoding error is a kind and a position.
- Bep44.ItemNode.HandlePut: write tokens and signatures are arbitrary predicates of their bytes.
- Rpc.RpcManager.NewQuery: whether the contact budget allows a query is an argument; the budget itself is in `ContactBudgets`.
- Rpc.RpcManager.Send: the datagram's bytes are not modelled, and `onSent` is left to the lookup's model.
- Rpc.RpcManager.RunPosted: cancelling everything from inside a callback is not modelled.
- Routing.RoutingTable.Insert: one node per address is stated for the insertion alone; promoting a replacement and re-homing a bad ID do not check it.
- Pinging and refreshing buckets, bucket by bucket: choices by age with no deeper property.
- Crawlers.AnyRun: runs past one cycle of generations are outside it, since stale references can then read as current.
- Crawlers.Crawler.Learn: how often a node was listed, and what is wrong with an address that cannot be reached, are not modelled.
- Crawlers.Crawler.OnFeatureReply: what a check found out (the Has and Answers flags, the sample count) is not modelled, only that it was made.
- Crawlers.Crawler.TakeDue: that nothing behind an entry that is not due is due either is not claimed; queues are filled in the order of replies.
- Crawlers.Crawler.Tick: seeding takes in arbitrary nodes; statistics, history samples and size estimates of a tick are left out.
- Histories.RecordIsFaithful: asks for spans of at least a millisecond, which sampling ensures (`dhtcore/src/Crawler.cpp:141`), that clients are listed once each, and of a metric's weighted sums that it is known throughout.
