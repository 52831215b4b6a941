# OpenQueue, verified

A Dafny model of the parts of OpenQueue that compute: the queueing discipline that runs in the kernel, the policy
compiler that generates its callbacks, and the parts of iproute2 with an algorithm in them (the JSON writer, the link
cache, MPLS labels, prefix selectors and route flushing). `dafny verify dfyconfig.toml` verifies everything.

## What is modelled

**Queueing discipline.** A queue keeps each packet in two trees, by admission key and by processing key; packets with
equal keys hang in a ring. `ArrivalList` says what this is for: one list in arrival order, from which a packet leaves
by the earliest largest key. `QueueRuns` proves what follows for every run of events, and `QueueLaws` says of every
run which packet leaves when, and what the policy saw and decided, in terms of the packets alone. `Rings` and `Trees`
are the data structure, `QueuePolicies` has the policy functions and the runs they lead to, and `OpenQueue` has the
operations of the C code as methods of a class that keeps, for each queue, the ghost history of its events: every
operation is one step of `QueueRuns` in it, so the laws of runs are laws of the class. Memory is explicit in
`OpenQueue`: containers and list heads live in maps from addresses to records, so a read of freed memory or a second
free would be a failed map access, and the links are written one at a time as in C. Each record names the ring it is
in by a ghost field that no code reads. The code for the two trees, which the C source writes out twice, is written
once for a `Side`.

**Policy compiler.** `InlineStatements` and `CExpressions` translate inline expressions and give C text its meaning;
`Routines` checks signatures and emits calls; `Policies` says what each line of a policy file does and `OqGen` is the
parser itself, with its loops and tables. `PolicyTyping` proves what holds of every policy that can be read,
`PolicyText`, `HeaderText`, `Layouts` and `PolicyFiles` that every policy that is written down is read as it was
meant, `PolicyLines` which lines are not, `PolicyRefusals` and `PolicyChanges` what is refused and what any line can
change, `Generated` that the generated dispatch and initialisation code does what the policy says, and `PolicyMeaning`
that it does what the commands of the file say. `Double.parseDouble`, `Double.toString` and the meaning of C string
literals are parameters, of which only what is stated in the contracts is assumed.

**JSON writer.** `JsonText` and `JsonStreams` write, `JsonParser` is a reader of RFC 8259 of its own, and
`JsonRoundTrip` connects the two. `JsonLayout` is about the lines of pretty mode.

**Link cache.** `LinkRuns` is the abstract cache, `Hlists` the buckets with back links to slots, `LinkTables` and
`LinkCache` the two hash tables over them.

**MPLS.** `MplsLabels` has the bytes of a label stack (section 2.1 of RFC 3032), `MplsText` and `MplsParse` the printer
and the parser, and `MplsNumerals` the notations that the parser knows.

**Routes.** `AddressBits` compares addresses by words and masks on a host of either byte order, `RouteSelectors` uses
that for the options `root`, `match` and `exact` (section 3.1 of RFC 4632), `Netlink` and `RouteFlush` gather delete
requests in a buffer and send them in batches.

## Findings

Where a natural law does not hold of the code, the code is kept, and the law is proved with its exact condition.

- A tail drop does not take the packet off `len`. So `len` is the occupancy if and only if no tail was ever dropped,
  and a queue that refuses packets from `len >= K` on is closed for good if and only if it has lost K tails
  (`QueueRuns.Conservation`, `QueueRuns.ReopensIff`).
- The example condition `len == 256` bounds the queue if and only if the action is not the tail drop, which the
  examples use (`QueueRuns.EqualityTestBoundsIff`).
- The JSON writer encodes a backslash as a line feed and an apostrophe with an escape JSON does not have
  (`JsonRoundTrip.RoundTrip`).
- The link cache files a renamed link under its new hash but keeps the old name in it, and renaming it back does not
  mend that (`LinkRuns.RenameIsForgotten`, `LinkRuns.RenamedBack`, `LinkRuns.ByNameRightIffSettled`).
- `ip route list default` and `match default` without a family select every route, where they ask for those of length
  0 only (`RouteSelectors.NoFamilyRightIffRoot`).
- A queue or port can be declared under a name with a dot or one that begins with `//`, `import`, `Queue` or `Port`,
  but then not be assigned to (`PolicyLines.AssignableIff`); braces the wrong way round in an inline expression, and a
  closing parenthesis in the name of a routine, end the compiler with an exception (`PolicyLines.CrashesIff`); of queues
  whose names agree in their first 32 characters, one has its statements evaluated for all
  (`Generated.DispatchIsRight`).
- In a header, a comment without a tag between an annotation and its declaration takes the annotation back, and the
  declaration is passed over without a message (`Layouts.PendingAfter`).
- Four buffers are written without a test of their size: the names in the link cache, the flush buffer, the slots of a
  port, and the text of a label stack. The exact conditions for staying inside are part of
  `LinkCache.Cache.RememberIndex`, `LinkCache.Cache.RememberAll`, `RouteFlush.Flusher.PrintRoute`, `Generated.InitPort`
  and `MplsText.Print`.

## Model

| member | source | states |
|---|---|---|
| `ArrivalList.EarliestMax` | qdisc/mod_sch_openqueue.c:264-268 | the packet that leaves next is the earliest one that has the largest key |
| `ArrivalList.EarliestMaxHeads` | qdisc/mod_sch_openqueue.c:264-286 | that packet is the head of the ring of its key, so taking the head of the ring of the largest key takes exactly it |
| `QueueRuns.RunAccounted` | qdisc/mod_sch_openqueue.c:210-324 | over every run the multiset of packets offered splits into accepted, refused and leaked, and the accepted ones into stored, delivered and tail-dropped; every counter is the size of one of these, and the packets freed are, as a multiset, the dropped tails and the refused ones |
| `QueueRuns.Conservation` | qdisc/mod_sch_openqueue.c:129-130 | over every run offered = stored + delivered + `dropped` + leaked and `total` - delivered = `len`; `len` is the occupancy if and only if no tail was dropped, and the first law holds without the last summand if and only if no unknown action lost a packet |
| `QueueRuns.ExactlyOneFate` | qdisc/mod_sch_openqueue.c:210-324 | if no packet is offered twice, each offered packet is exactly one of stored, delivered, tail-dropped, refused and leaked, and once |
| `QueueRuns.FreedOnce` | qdisc/mod_sch_openqueue.c:200-206 | if no address is offered twice, each offered packet is stored, delivered, given to `kfree_skb` or leaked, only one of these and once |
| `QueueRuns.RunInOrder` | qdisc/mod_sch_openqueue.c:102-127 | over every run, for each processing key, what was delivered followed by what is stored is a subsequence of what was accepted |
| `QueueRuns.AcceptedInOrder` | qdisc/mod_sch_openqueue.c:210-243 | the accepted packets are a subsequence of the offered ones |
| `QueueRuns.FifoWithinKey` | qdisc/mod_sch_openqueue.c:264-286 | two delivered packets with equal processing keys leave in the order in which they were offered |
| `QueueRuns.Capacity` | qdisc/mod_sch_openqueue.c:210-243 | if the condition is `len >= K` with K at least 1, at most K packets are stored in every reachable state, whatever the actions and although `len` may exceed K |
| `QueueRuns.EqualityTestBoundsIff` | routine/routines.c:5-13 | with the condition `len == K`, for every K, at most K packets are stored in all runs if and only if the congestion action is not the tail drop, which the example routines use |
| `QueueRuns.EqualityTestUnbounded` | routine/routines.c:5-13 | with that condition and the tail drop there is, for every K and any list of packets, a run that offers these and stores all of them but at most one |
| `QueueRuns.CongestedForGood` | qdisc/mod_sch_openqueue.c:204-206 | tail drops are never taken off `len`: after K of them a policy congested from K on that drops the packet never accepts again, whatever happens |
| `QueueRuns.ReopensIff` | qdisc/mod_sch_openqueue.c:204-206 | after every run, a policy that drops the packet exactly from `len >= K` on can accept one again in some continuation if and only if fewer than K tails have been dropped |
| `QueueRuns.StableSortUnique` | qdisc/mod_sch_openqueue.c:246-324 | a sequence with descending keys is determined by its cuts to each key, so there is only one stable sort |
| `QueueRuns.DrainIsStableSort` | qdisc/mod_sch_openqueue.c:246-324 | repeated dequeue returns exactly the contents as the stable sort by descending processing key and leaves the queue empty |
| `QueueRuns.QueuesIndependent` | qdisc/mod_sch_openqueue.c:210-324 | a run of a whole port acts on each queue as the run of that queue's own events, so the other queues are untouched |
| `QueueLaws.FateByVerdict` | qdisc/mod_sch_openqueue.c:223-240 | over every run the packets stored are exactly those offered to a clear queue or answered with action 2, those freed on arrival the ones answered with 3, and those lost the ones answered with anything else, in the order of the offers |
| `QueueLaws.StoredInOrder` | qdisc/mod_sch_openqueue.c:76-124 | over every run the stored packets are a subsequence of the accepted ones |
| `QueueLaws.TailDrop` | qdisc/mod_sch_openqueue.c:146-152 | over every run each dropped tail went when an offer was answered with action 2, and then had the largest admission key of the packets stored, and was the earliest such |
| `QueueLaws.Delivery` | qdisc/mod_sch_openqueue.c:264-268 | over every run each delivered packet went at a dequeue, and then had the largest processing key of the packets stored, and was the earliest such |
| `QueueLaws.LeavesIff` | qdisc/mod_sch_openqueue.c:210-324 | at each event of every run a packet is delivered if and only if the queue is dequeued and not empty, and a tail dropped if and only if the queue is not empty and answers an offer with action 2 |
| `QueueLaws.PolicyDecided` | qdisc/mod_sch_openqueue.c:72-73 | over every run that a policy decides, each verdict is what its congestion functions say of the counters that the packets of the run so far amount to, and each packet has the admission key of the admission function and the processing key of the processing function, on these counters with one more drop if a tail was dropped for it |
| `Rings.RingAppend` | qdisc/mod_sch_openqueue.c:87-97 | the four link writes put a container behind the tail of a doubly linked ring and keep it a ring |
| `Rings.RingBypass` | qdisc/mod_sch_openqueue.c:189-198 | the two link writes take a container out of its ring, at any place, and keep the others a ring in their order |
| `Rings.WellFormedUpdate` | qdisc/mod_sch_openqueue.c:87-97 | a change to one ring leaves all rings of all queues well formed |
| `Trees.KeyIffRing` | qdisc/mod_sch_openqueue.c:76-86 | a key is in its tree if and only if some stored packet has it, and exactly then its ring is not empty |
| `Trees.InsertFirst` | qdisc/mod_sch_openqueue.c:77-86 | a packet of a new key: the new ring, list head and tree entry keep trees, rings and the arrival list in step |
| `Trees.InsertMore` | qdisc/mod_sch_openqueue.c:87-97 | a packet of a known key: the same for the longer ring |
| `Trees.RemoveLast` | qdisc/mod_sch_openqueue.c:155-168 | the last packet of a key: ring, list head and tree entry go together and the rest stays in step |
| `Trees.RemoveOne` | qdisc/mod_sch_openqueue.c:189-198 | any packet of a ring with company: the same for the shorter ring, with the list head following if the head goes |
| `Trees.LargestKey` | qdisc/mod_sch_openqueue.c:264-264 | the largest key of a tree is the largest key of a stored packet |
| `Trees.TwinPlace` | qdisc/mod_sch_openqueue.c:289-305 | in the other tree's ring of the key its container names, the packet taken from one tree is at one place only, which its rank in arrival order gives |
| `OpenQueue.Last` | qdisc/mod_sch_openqueue.c:264-264 | the largest key of a tree, or nothing for an empty one |
| `OpenQueue.OqPriv.Find` | qdisc/mod_sch_openqueue.c:289-305 | the search walks the ring at most once, stays within live containers, and returns the place of the packet if and only if it is in the ring |
| `OpenQueue.OqPriv.Insert` | qdisc/mod_sch_openqueue.c:76-124 | files a packet in one tree of one queue: the tree's arrival list grows by it at the end, all else stays |
| `OpenQueue.OqPriv.RemoveFirst` | qdisc/mod_sch_openqueue.c:264-286 | takes the earliest packet with the largest key out of one tree, if there is one |
| `OpenQueue.OqPriv.RemoveTwin` | qdisc/mod_sch_openqueue.c:289-316 | takes that packet out of the other tree; neither the lookup nor the search can fail, so the not-found exits are unreachable |
| `OpenQueue.OqPriv.DoEnqueue` | qdisc/mod_sch_openqueue.c:66-133 | the two trees and their rings refine one arrival list: the packet is appended with the admission key and the processing key that the two policy functions give for the counters before the call, `len` and `total` grow by one, the other queues are untouched |
| `OpenQueue.OqPriv.DoDropTail` | qdisc/mod_sch_openqueue.c:136-207 | frees a packet than which no stored one has a larger admission key, and before which none has as large a one, removes just that from the list, counts it in `dropped` and leaves `len`; an empty queue is an error |
| `OpenQueue.OqPriv.OqEnqueue` | qdisc/mod_sch_openqueue.c:210-243 | the whole of enqueue is one offer of the packet, with the verdict and keys of the policy, in the history of the selected queue, for every policy and every action value; all other queues stay as they are |
| `OpenQueue.OqPriv.OqDequeue` | qdisc/mod_sch_openqueue.c:246-324 | the whole of dequeue is one dequeue in the history of the scheduled queue: a packet comes out than which no stored one has a larger processing key, and before which none has as large a one, both its containers are freed, and nothing comes out if and only if the queue is empty |
| `OpenQueue.OqPriv.constructor` | include/qdisc/sch_openqueue.h:55-89 | a fresh port is valid, all its queues are empty and nothing is allocated |
| `OpenQueue.OqPriv.Accounting` | qdisc/mod_sch_openqueue.c:155-202 | in every valid state, and every operation keeps validity, live containers are twice the stored packets, live list heads are the distinct admission keys plus the distinct processing keys of the queues, and empty queues have empty trees |
| `OpenQueue.TraceStep` | qdisc/mod_sch_openqueue.c:210-324 | an event keeps every queue of the port in the state to which its own history leads an empty queue |
| `QueuePolicies.ThresholdRun` | qdisc/mod_sch_openqueue.c:210-224 | a policy whose condition is `len >= K` only makes runs that never find the queue clear from K on |
| `OpenQueue.OqPriv.Conserved` | qdisc/mod_sch_openqueue.c:129-130 | in every reachable state of a port, for each queue: the counter laws of `QueueRuns.Conservation` with their exact conditions |
| `OpenQueue.OqPriv.OneFate` | qdisc/mod_sch_openqueue.c:200-206 | in every reachable state each packet a queue was offered under an address of its own is stored, delivered, freed or lost, and only one of these |
| `OpenQueue.OqPriv.AtMost` | qdisc/mod_sch_openqueue.c:210-243 | in every reachable state of a port whose policy is congested exactly from `len >= K` on, with K at least 1, no queue stores more than K packets |
| `OpenQueue.OqPriv.Fifo` | qdisc/mod_sch_openqueue.c:264-286 | in every reachable state, two packets a queue has delivered under equal processing keys had been offered in that order |
| `OpenQueue.OqPriv.Drain` | qdisc/mod_sch_openqueue.c:246-324 | after any number of dequeues under any scheduler, what a queue has given is the beginning of the stable sort of its packets by descending processing key, and all of it, with both trees empty, once the queue is empty; a queue that has given nothing is as it was |
| `OpenQueue.OqPriv.Decided` | qdisc/mod_sch_openqueue.c:72-73 | in every reachable state of a port, every offer that a queue has ever had was decided, and its packet given its two keys, by the policy on the counters of that time |
| `OpenQueue.OqPriv.Seen` | qdisc/mod_sch_openqueue.c:218-231 | in every reachable state, what the policy functions see of a queue is its name, its size, the stored packets and the dropped tails as `len`, the dropped tails and the refused packets as `dropped`, and the accepted ones as `total` |
| `JsonText.CharRead` | iproute2/lib/json_writer.c:65-92 | what a reader of RFC 8259, section 7 decodes from each escaped character, the wrong encodings of backslash and apostrophe included |
| `JsonRoundTrip.ValueRead` | iproute2/lib/json_writer.c:129-224 | every value, pretty or not, is read back as its decoded tree, and reading fails exactly if a string in it cannot be decoded |
| `JsonRoundTrip.DocumentRead` | iproute2/lib/json_writer.c:97-169 | the same for a whole document |
| `JsonRoundTrip.RoundTrip` | iproute2/lib/json_writer.c:61-94 | a document reads back as the tree it was written from if and only if no string or name in it has a backslash, an apostrophe or a control character that is not escaped |
| `JsonRoundTrip.PrettyIsWhiteSpace` | iproute2/lib/json_writer.c:41-48 | for every tree the two modes give the same text once white space between tokens is removed |
| `JsonLayout.PrettyLaidOut` | iproute2/lib/json_writer.c:32-48 | in pretty mode, for every tree, each member of an object starts a line, and each line starts with four blanks for each open bracket, the one that closes a bracket with those of the bracket it closes, except that the outermost brace closes behind four as well |
| `JsonStreams.ValueWritten` | iproute2/lib/json_writer.c:129-224 | from every writer state, the well-nested calls for a value append exactly its text, keep the depth and leave a comma pending |
| `JsonStreams.WriterRoundTrip` | iproute2/lib/json_writer.c:97-224 | the calls for any tree from `jsonw_new` to `jsonw_destroy` produce a text that reads back as that tree if and only if its strings are clean, and pretty mode changes only white space |
| `JsonStreams.JsonWriter.constructor` | iproute2/lib/json_writer.c:97-108 | a new stream holds the opening brace at depth 0 with no separator pending |
| `JsonStreams.JsonWriter.PutString` | iproute2/lib/json_writer.c:61-94 | appends the quoted and escaped string |
| `JsonStreams.JsonWriter.BeginNest` | iproute2/lib/json_writer.c:129-135 | as the pure writer: separator, bracket, one level deeper |
| `JsonStreams.JsonWriter.EndNest` | iproute2/lib/json_writer.c:137-146 | as the pure writer: one level up, line end unless empty, bracket |
| `JsonStreams.JsonWriter.Name` | iproute2/lib/json_writer.c:150-159 | as the pure writer, in both modes |
| `JsonStreams.JsonWriter.Destroy` | iproute2/lib/json_writer.c:111-121 | at depth 0 leaves the finished document |
| `JsonStreams.JsonWriter.Play` | iproute2/lib/json_writer.c:97-224 | any sequence of calls leaves the writer as the pure writer's run of them does, and stops exactly where that one trips the assertion on the depth |
| `JsonStreams.WriteTree` | iproute2/lib/json_writer.c:97-224 | a new writer, the calls for a tree and the end of the stream give a text that reads back as the tree if and only if its strings are clean, and that pretty mode lays out as above |
| `LinkRuns.HashIsPolynomial` | iproute2/lib/ll_map.c:55-63 | the wrapping hash of a name is its polynomial in 33 modulo 2^32 |
| `LinkRuns.HashClosed` | iproute2/lib/ll_map.c:55-63 | in closed form: 5381 times a power of 33, plus each byte with its sign times the power of 33 for its place, modulo 2^32 |
| `LinkRuns.ByIndexIsMap` | iproute2/lib/ll_map.c:40-53 | over every run of add, change and delete events, lookup by index is the plain map of live links, with name and type from the creating event and flags from the latest |
| `LinkRuns.ByNameIsNewest` | iproute2/lib/ll_map.c:65-79 | over every run in which no live link changes its name, lookup by name finds the live link inserted last under that name, and nothing if there is none |
| `LinkRuns.LinkPlaced` | iproute2/lib/ll_map.c:112-136 | over every run each cached link has the name of its creating event and sits in the bucket of the last announced name that was not its own, or of its own if there was none |
| `LinkRuns.ByNameRightIffSettled` | iproute2/lib/ll_map.c:112-136 | over every run after which the live links are called differently, all lookups by name are right if and only if each live link was last announced under the name of its creating event and the last other name announced for it, if any, lies in the same bucket |
| `LinkRuns.RenamedBack` | iproute2/lib/ll_map.c:112-118 | a link renamed and renamed back is settled if and only if the two names share a bucket |
| `LinkRuns.RenameIsForgotten` | iproute2/lib/ll_map.c:112-118 | for any two names, a link created under one and renamed to the other is not found under the new name, and under the old one if and only if both hash to the same bucket |
| `Hlists.ChainAdd` | iproute2/include/hlist.h:28-36 | adding at the head keeps every back link on the slot that points to its node |
| `Hlists.ChainDelete` | iproute2/include/hlist.h:19-26 | deleting through the back link does the same, and changes no other bucket |
| `Hlists.Hlist.AddHead` | iproute2/include/hlist.h:28-36 | the bucket's chain gets the node in front, all other chains stay |
| `Hlists.Hlist.Del` | iproute2/include/hlist.h:19-26 | the chain loses exactly this node, found from the node alone |
| `LinkCache.NameHash` | iproute2/lib/ll_map.c:55-63 | the loop computes the hash |
| `LinkCache.Cache.constructor` | iproute2/lib/ll_map.c:27-38 | an empty cache with two tables of its own |
| `LinkCache.Cache.GetByIndex` | iproute2/lib/ll_map.c:40-53 | the bucket walk is lookup by index in the abstract state |
| `LinkCache.Cache.GetByName` | iproute2/lib/ll_map.c:65-79 | the bucket walk is lookup by name in the abstract state |
| `LinkCache.Cache.RememberIndex` | iproute2/lib/ll_map.c:81-139 | one message changes the abstract state as its event does, ignores other kinds and refuses short ones; every live entry stays in exactly one index bucket and one name bucket; it writes past the end of a name if and only if it creates a link under 16 bytes or more |
| `LinkCache.Cache.RememberAll` | iproute2/lib/ll_map.c:81-139 | after any messages to an empty cache, an index is known unless every message of kind 16 and at least 24 bytes that announced it is followed by such a one of kind 17 that deletes it; its name and type are those of the first announcement since, its flags those of the latest; a name is written past its end if and only if an index that is not known at that time is announced under 16 bytes or more |
| `LinkCache.KnownAfter` | iproute2/lib/ll_map.c:81-139 | the same over the messages, for the plain map of live links |
| `MplsLabels.EncodeCells` | iproute2/include/linux/mpls.h:7-32 | the canonical stack of a list of labels has these labels and the bottom bit on the last one only |
| `MplsLabels.EntryBytes` | iproute2/include/linux/mpls.h:7-32 | the four bytes of an entry: the 20 bits of the label, then the bottom bit, with traffic class and time to live 0 |
| `MplsText.PrintSizeSuffices` | iproute2/lib/mpls_ntop.c:9-35 | 64 bytes hold the text of every stack of at most 8 entries |
| `MplsText.PrintSizeTight` | iproute2/include/utils.h:43-43 | all 64 are needed, NUL included, by eight labels of seven digits |
| `MplsText.Print` | iproute2/lib/mpls_ntop.c:9-35 | into a buffer of any size: writes past its end if and only if it is more than one byte short of the text above the bottom entry; otherwise fails if and only if the bottom is not among the first 8, and leaves the whole text with a NUL if there is room, or else as much as fits, with a NUL unless the buffer ends behind the last slash |
| `MplsParse.ParseInto` | iproute2/lib/mpls_pton.c:10-41 | fills the entries in place exactly with the stack the text names, and fails on every other text |
| `MplsParse.PrintedRead` | iproute2/lib/mpls_pton.c:10-41 | parsing what was printed from any place on gives the rest of the labels |
| `MplsParse.RoundTrip` | iproute2/lib/mpls_pton.c:10-41 | parsing the printed form of every canonical stack of 1 to 8 labels returns that stack |
| `MplsParse.NormalForm` | iproute2/lib/mpls_pton.c:10-41 | whatever text is accepted names a canonical stack, and printing it gives a text that parses to the same stack |
| `MplsNumerals.StrtoulRead` | iproute2/lib/mpls_pton.c:18-24 | a number of any size is read in decimal, in octal after 0 and in hexadecimal after 0x or 0X, behind white space and a sign: one above 2^64 - 1 becomes that, and a minus sign wraps it around at 2^64 |
| `MplsNumerals.WrittenRead` | iproute2/lib/mpls_pton.c:10-41 | a stack of 1 to 8 labels is read whatever notation, white space and plus sign each of them is written with |
| `AddressBits.MaskedWords` | iproute2/lib/utils.c:615-626 | the comparison of two loaded words under the converted mask compares their leading bits in network order, on hosts of either byte order |
| `AddressBits.MatchComparesBits` | iproute2/ip/ipxfrm.c:68-94 | the comparison gives 0 if and only if the first n bits agree, -1 if and only if they differ in a whole word, and 1 otherwise, for every n the storage has room for |
| `RouteSelectors.Inside` | iproute2/ip/iproute.c:181-194 | the addresses of one prefix lie within those of another if and only if it is at least as long and begins with the other |
| `RouteSelectors.SelectsMeant` | iproute2/ip/iproute.c:207-246 | the length tests and comparisons of the filter select a route if and only if its destination and source lie within the `root` prefixes and around the `match` prefixes that have a family |
| `RouteSelectors.OneOption` | iproute2/ip/iproute.c:1413-1429 | with a prefix P of a family, `root P`, `match P` and `exact P` select exactly the routes of the family whose addresses are within, around, or the same as those of P |
| `RouteSelectors.NoFamilyOnRoute` | iproute2/lib/utils.c:496-505 | `default` without a family selects every route, which is what `root` asks for, and what `match` and `exact` ask for only on routes of length 0 |
| `RouteSelectors.NoFamilyRightIffRoot` | iproute2/lib/utils.c:496-505 | such an option selects, of all routes, exactly what it asks for if and only if it is `root` |
| `Netlink.ParseAppend` | iproute2/include/linux/netlink.h:79-89 | a message put at the next aligned offset is read after all the others, which are read as before |
| `RouteFlush.RequestFields` | iproute2/ip/iproute.c:344-347 | a request keeps length and payload and gets the type, flags and number of a delete request |
| `RouteFlush.RequestsExactly` | iproute2/ip/iproute.c:321-349 | the requests for a dump are, in order, for the reports of type 24 with at least 28 bytes that the filter selected, and for all of these; each has the length and payload of its report, type 25, flag 1 and the next number modulo 2^32 |
| `RouteFlush.Flusher.Update` | iproute2/ip/iproute.c:126-134 | a successful send delivers everything waiting and empties the buffer; after a failed one, which the kernel may still have taken, either nothing more or exactly what was waiting has been delivered |
| `RouteFlush.Flusher.Write` | iproute2/ip/iproute.c:343-347 | copy and patch change exactly the bytes of the message |
| `RouteFlush.Flusher.Append` | iproute2/ip/iproute.c:343-349 | the buffer holds one message more, at an aligned offset behind the others and inside the buffer |
| `RouteFlush.Flusher.PrintRoute` | iproute2/ip/iproute.c:298-352 | one message of the dump adds exactly its request if it is chosen, flushing first if it does not fit, and nothing otherwise; unless a send fails before, it writes past the end of the buffer if and only if the message is chosen and longer than the buffer |
| `RouteFlush.Flusher.Round` | iproute2/ip/iproute.c:1473-1498 | after a round that is not broken off the kernel has got one request for each chosen route, once, in dump order, consecutively numbered, and the buffer is empty; after one that is, it has got a prefix of these |
| `CExpressions.TextRead` | src/InlineStatement.java:71-125 | the C text of an expression denotes that expression and no other |
| `InlineStatements.Translates` | src/InlineStatement.java:32-136 | every expression over the queue and packet attributes and int literals, alone or in one of the six comparisons, is accepted and becomes C text with the same value in every environment |
| `InlineStatements.Sound` | src/InlineStatement.java:32-136 | whatever text is given, the output is always the text of such an expression over the listed attributes |
| `InlineStatements.NumberTranslated` | src/InlineStatement.java:127-132 | every number that can be parsed, whatever its notation, becomes the text of the integer it is cast to |
| `InlineStatements.CutOff` | src/InlineStatement.java:127-132 | that cast cuts off towards zero, and gives the nearest end of the range of `int` for a number outside it |
| `PolicyRefusals.FieldsIff` | src/InlineStatement.java:86-125 | an attribute of the queue or of the packet is accepted if and only if it is one of those listed, as that field |
| `PolicyRefusals.ComparisonIff` | src/InlineStatement.java:44-71 | for any three words, the comparison they make is accepted if and only if its two sides are terms and the sign between them is one of the six |
| `PolicyLines.CrashesIff` | src/OQGen.java:219-248 | an exception ends the compiler on exactly those lines that assign, to an attribute of a declared queue or port, an inline expression with its closing brace before its opening one, or a call of a routine of the slot's type that has a closing parenthesis in its name |
| `PolicyLines.ClosesFirstDeclared` | src/OQGen.java:472-753 | a header can declare such a routine, under any visible name with a closing and without an opening parenthesis or a blank, and any call of it with parentheses is such a line |
| `Routines.Exclusive` | src/OQGen.java:472-753 | no header line passes the checks of two types, except those of admission and processing, which agree |
| `Routines.LeadingFits` | src/RoutineCallStatement.java:39-56 | each leading argument of a call is a parameter of the generated function around it, and points to what the header asks for in that place |
| `Routines.GetStatement` | src/RoutineCallStatement.java:35-71 | the emitted text is the name with the leading arguments, the number of values and the values |
| `Routines.CallRead` | src/RoutineCallStatement.java:35-71 | read back from its text, a call has this name, these leading arguments, and a count equal to the number of trailing arguments, which are the values |
| `PolicyTyping.LinesTyped` | src/OQGen.java:65-188 | after any lines, accepted or not, every bound statement has the type of its slot and is a translated expression or a call to a known routine annotated with that type; every routine has a header line with the signature of its type; the port's queues are declared |
| `PolicyTyping.AcceptedIsReady` | src/OQGen.java:195-209 | for every accepted and well-defined policy no statement that is emitted is missing, and each call goes to a routine declared with the signature of its slot |
| `PolicyTyping.EmittedCallFits` | src/OQGen.java:219-275 | such a call, read back, passes what the declaring header line requires, in order and from what is in scope, and a correct count |
| `HeaderText.DeclarationAccepted` | src/OQGen.java:472-753 | a declaration with the signature of its type is accepted under its name, for each of the six types |
| `HeaderText.AnnotationRead` | src/OQGen.java:761-776 | each annotation announces its own type and no other |
| `HeaderText.AnnotationIff` | src/OQGen.java:761-776 | a line with none of the six tags announces nothing, and one with a single tag the type of that tag |
| `HeaderText.SignatureAccepted` | src/OQGen.java:472-753 | for each type the C declaration that is accepted, spelled out, under every name |
| `PolicyRefusals.SignatureNeeded` | src/OQGen.java:472-753 | whatever header line passes for a type has the words of its return type, then the name, then its structures as parameters, an `int` and the three dots |
| `Layouts.PendingAfter` | src/OQGen.java:411-452 | after any lines of a header, what is announced for the next line is what the last line that is not blank announces, if it is a comment, and else nothing; so a comment without a tag takes an announcement back |
| `Layouts.IdleHeaderLine` | src/OQGen.java:415-421 | a blank line can be put in anywhere in a header, and where nothing is announced any line that announces nothing, and it makes no difference |
| `PolicyChanges.HeaderAcceptedIff` | src/OQGen.java:396-463 | a header is accepted if and only if each line that is announced declares a new routine with the signature of that type, and then it adds exactly these |
| `HeaderText.HeaderRead` | src/OQGen.java:396-463 | importing a header adds exactly the routines it declares, whatever blank lines, comments, other lines and white space there are besides: each declaration is a line by itself below a comment that announces its type, with nothing but blank lines between them |
| `PolicyText.QueueRead` | src/OQGen.java:284-328 | a queue declaration under any declarable name is read as it was written |
| `PolicyRefusals.ParseIntIff` | src/OQGen.java:314-319 | a size with any sign and any zeros in front is accepted if and only if it fits an `int` |
| `PolicyText.PortRead` | src/OQGen.java:337-388 | a port declaration over declared queues is read as it was written |
| `PolicyText.InlineBound` | src/OQGen.java:219-228 | an inline right-hand side binds the translated expression |
| `PolicyText.CallBound` | src/OQGen.java:229-256 | a call with values binds that routine with these values |
| `PolicyRefusals.CallBoundIff` | src/OQGen.java:229-256 | for any routine name and any list of texts, the call is bound with their values if and only if the routine has the type of the slot and each text is a number, and otherwise refused |
| `PolicyFiles.FileRead` | src/OQGen.java:65-188 | a policy file that holds any list of legal commands, one to a line, with any blank lines, comments and white space between and around them, is accepted and makes exactly the policy the commands describe |
| `Layouts.IdleLine` | src/OQGen.java:71-78 | a blank line or a comment can be put in anywhere in a policy file, accepted or not, and makes no difference to verdict and policy |
| `Layouts.FirstBadLine` | src/OQGen.java:70-188 | the first line that is not accepted ends the file with its own verdict, whatever follows |
| `PolicyChanges.AcceptedLine` | src/OQGen.java:70-175 | whatever an accepted line says, it changes nothing if it is blank or a comment, or adds the routines of a header that is there, or ends with a semicolon and declares one queue, declares the port over declared queues, or sets exactly one slot that is there |
| `PolicyChanges.RefusedLine` | src/OQGen.java:70-175 | a line that is not accepted changes nothing, except that the routines before a bad line of a header stay and a bad port declaration takes the port away |
| `PolicyRefusals.AttributeIff` | src/OQGen.java:132-172 | an attribute names a slot of a queue or of the port if and only if it is one of the six, and then that one |
| `PolicyMeaning.HeldIff` | src/OQGen.java:75-175 | after any legal commands a slot holds what the last command that sets it says, unless its queue or port is declared anew after it; and it holds nothing if and only if there is no such command |
| `PolicyText.DeclarableIff` | src/OQGen.java:284-328 | a queue can be declared under exactly the visible names without a blank and an equals sign |
| `PolicyLines.AssignableIff` | src/OQGen.java:75-175 | an assignment to an attribute that is there, under any name that can be declared: passed over if the name begins with `//`, refused if it has a dot or begins with `import`, `Queue` or `Port`, and exactly otherwise it binds the statement |
| `OqGen.Compiler.constructor` | src/OQGen.java:24-26 | an empty policy |
| `OqGen.Compiler.ParsePolicyFile` | src/OQGen.java:65-188 | the loop reads the lines as the specification does: same verdict, same tables, also on failure |
| `OqGen.Compiler.ProcessImport` | src/OQGen.java:396-463 | the loop over the header reads it as the specification does, keeping what was added before a bad line |
| `OqGen.Compiler.ValidatePortDeclaration` | src/OQGen.java:337-388 | the port, or nothing if any of its queues is not declared |
| `OqGen.Compiler.ValidateFunctionAssignment` | src/OQGen.java:219-275 | the statement, the refusal or the exception that the specification gives |
| `OqGen.Compiler.IsWellDefined` | src/OQGen.java:195-209 | true if and only if the port has its two statements and a queue and every queue has its four statements |
| `Generated.GenerateDispatch` | src/OQGen.java:943-1043 | one conditional assignment for each queue, in the order of the map, with the text that `getStatement` returns |
| `Generated.StatementSpelled` | src/RoutineCallStatement.java:35-71 | the text of a statement that is ready for its slot, read back, is an expression with the value of the bound one in every environment, or a call of the bound routine with the leading arguments of the slot, the number of the bound values, and these |
| `Generated.GenerateInitPort` | src/OQGen.java:1114-1125 | one initialisation for each queue, in the order of the map |
| `Generated.InitPort` | src/OQGen.java:1087-1125 | with at most 16 queues fills slots 0 to n-1 with empty queues of the declared sizes under the first 32 characters of their names; the first slot without memory ends it with the slots before it filled; it writes past the last slot if and only if there are more than 16 queues and memory for 16 |
| `Generated.DispatchIsRight` | src/OQGen.java:943-1043 | for any two orders of the map and whatever strings the C compiler makes of the names, a dispatch function evaluates on every slot the statement of the queue that slot was filled from, if and only if queues whose literals agree in their first 32 characters have the same statement there; so it does if no two literals agree in them |
| `Generated.IdentifiersDispatchRight` | src/OQGen.java:943-1043 | if all names are identifiers and no two agree in their first 32 characters, all dispatch is right |
| `Generated.CompiledPolicy` | src/OQGen.java:1087-1144 | the whole compiler on every accepted, well-defined policy file with at most 16 queues: slots, statements and dispatch as above, and the text dispatched to on the slot of a queue, read back, is the statement bound to that queue |
| `PolicyMeaning.DispatchMeans` | src/OQGen.java:943-1043 | from the commands of a policy file to the generated code: on the slot of every queue a dispatch function evaluates, under the condition above, a text that read back is the expression, or the call with its number of values and its values, to which the last command for that slot has set it |
| `PolicyMeaning.PortMeans` | src/OQGen.java:1045-1085 | the same for the two functions of the port |

## Left out

- Wrap-around of the 32-bit counters of a queue: they are mathematical integers. The hash of names, the numbers of
  netlink requests and `strtoul` do wrap around as in C.
- Failed allocations in the queueing discipline and the link cache; the generated initialisation does model them.
- The inside of the kernel's B-trees: a tree is a map from keys to list heads, and its last key the largest one.
- Locks, the packets themselves, and queue numbers out of range that a policy might return. A policy function is a
  function of the counters and the packet's address, without a state of its own.
- A packet that is enqueued while it is still stored: `OpenQueue.OqPriv` requires the address to be new.
- The ring of registered policies, an easier copy of the rings proved here.
- Netlink option parsing, dumping of statistics, sockets, ioctls and command-line options.
- The other tests of the route filter (table, protocol, scope, type, interfaces and so on), which are single masked
  comparisons; flushing takes the filter's verdict on each message as given.
- RouteFlush.Flusher.PrintRoute: does not model what is printed with higher statistics levels.
- Netlink bytes are those of a little-endian host.
- OpenQueue containers and list heads as Dafny objects: they are records in explicit memory, which keeps update in
  place, aliasing and freeing visible.
- Hosts on which `char` has no sign: the hash of a name adds its characters with their signs.
- JSON floating point and null, which the source compiles out; strings are sequences of characters without NUL, and
  pairs of surrogates are not combined.
- LinkCache.Cache.RememberIndex: does not model a message without a name; the source's own test for it never fires.
- MplsText.Print: requires that memory goes on to the bottom entry or for 8 entries.
- Exhaustive syntax of `Double.parseDouble` and `Double.toString`: parameters.
- The text of the generated C functions around the statements: dispatch and initialisation are modelled as the
  conditional assignments and calls they are.
- What a C compiler makes of a name between quotes: a parameter, of which nothing is assumed but, for
  `Generated.IdentifiersDispatchRight`, that identifiers stay as they are. A module that does not compile has no
  meaning.
- After a write past the end of a buffer nothing is modelled.
- Reading and writing of files (a file is its lines), Makefiles, messages, and module registration.
- IPX, DECnet and the other address families, and the rest of iproute2.
