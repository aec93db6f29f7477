# A verified model of the PowerDNS packet codec, caches and scheduler, and of splitpipe

This project models parts of the PowerDNS sources and of the splitpipe backup tools in Dafny and proves properties of
the model. It is checked with `dafny verify dfyconfig.toml`.

## What is modelled

* **The DNS wire codec** (`Dns*.dfy`). Names and their escaped text, the packet writer with its label map and its
  record header that is still to come, the reader that follows compression pointers, the parser for whole packets,
  the field layouts of the record types, and the ageing of packets in place. The main result is the packet round
  trip: what is written is what is parsed, also when records are rolled back in between (`DnsRollback`) and when the
  packet is aged before it is parsed (`DnsAgedPackets`). `DnsLimits` says what happens beyond each hypothesis.
* **splitpipe and joinpipe** (`Md5Stream`, `RingBuffer`, `SessionFormat`, `SplitPipe*`, `Join*`). A byte stream goes
  through a ring buffer, is cut into stretches and volumes with running checksums, and is put together again from
  volumes inserted in order or in any order.
* **MTasker** (`MTasker*`). The cooperative scheduler as steps over threads. What a thread does each time it has
  control is a list of calls, so every behaviour of threads is covered.
* **Caches** (`ByteOrder`, `RecordVector`, `Recursor*`, `CachePruning`, `Backwards*`, `PacketCache*`). The record cache
  of the recursor with its remembered lookup range and its trust rules, the pruning of a cache to its maximum, and the
  packet cache of the authoritative server with its order of names from the back and its suffix purge.
* **Bit codecs** (`Base32Hex`, `NsecBitmap`).

Code that changes fields or arrays step by step is a class or a method with loops. Each such method is proved against
a function on values, and what the source promises is proved about those functions: as an invariant of every step,
over every run, or as a round trip.

## What the proofs show about the code

Where a promise does not hold for every input, the model keeps the code as it is and a lemma gives the condition under
which it holds.

* The reader takes no more than ten pointers, and the writer makes names that need one per label: names of up to ten
  labels always come back, and there are names of eleven labels that the writer produces and the reader rejects
  (`DnsLimits.TowerReadsUpToTen`).
* The writer takes longer labels than the reader. It throws for one of more than 255 octets only when the text holds
  an escape; without one it checks no length and truncates the length octet. A length octet of 192 and more reads as
  a pointer, and a name comes back exactly when no label has more than 191 octets (`DnsLimits.LabelsComeBackIff`,
  `DnsLimits.LongLabelNeverRead`).
* `rollback` keeps the label map. The packet stays right exactly when the record rolled back remembered no name
  (`DnsRollback.RollbackKeepsIff`); otherwise, writing the same new name again gives a pointer to itself
  (`DnsLimits.RollbackThenSameName`).
* A record without data that is not committed explicitly is lost when the next one is started. An empty blob behind
  other fields cannot be read at the very end of a packet: the reader looks at its first octet before it looks at its
  length. But for these two every packet comes back (`DnsLimits.RoundTripIff`, `DnsLimits.EmptyKeysRejected`).
* `get` on a ring buffer that is empty with both positions at the end of the vector would break it
  (`RingBuffers.GetSafeIff`). splitpipe never does that.
* A stretch started with exactly three octets left is empty, and joinpipe takes an empty Data stretch for an error
  (`JoinPipeLoop.SplitThenJoin`). Volume numbers have 16 bits: beyond 65536 volumes a session cannot be joined, and
  its 65537th volume is taken for the first (`JoinOrder.JoinInOrder`, `JoinOrder.BoundIsNeeded`).
* splitpipe subtracts 2048 from the volume size without looking; when the per-volume stretches do not fit what is left,
  volumes grow past any size (`SplitPipeBound.VolumeBoundIff`). When they fit and leave fewer than four octets, no
  volume carries data and no run over a non-empty input ends (`SplitPipeProgress.GetsOutIff`).
* The pass of `schedule` over the waiters never ends when a waiter has no deadline (`MTaskerTimeouts.PassWakesTheLate`).
* An authoritative refresh of name servers can raise the expiry of a live record when the same data is sent twice
  (`RecursorEntry.RefreshRaisesIff`, `RecursorEntry.RefreshRaises`); a live authoritative CNAME or SOA gives way to
  data without authority (`RecursorEntry.CnameOverwritten`).
* A suffix purge stops at a name that has the suffix preceded by a character below the dot, such as a hyphen
  (`PacketCachePurge.SuffixCompleteIff`); the count that `purge` returns forgets what was deleted before the last plain
  match (`PacketCachePurge.CountIsRightIff`, `PacketCachePurge.CountIsRightByNames`, `PacketCachePurge.CountForgets`);
  what is inserted for a zone is never found for that zone (`PacketCachePurge.ZonesAreNeverFound`). The comparator is
  no strict weak order on names with zero octets (`BackwardsOrder.WrongTieIff`, `BackwardsOrder.NulBreaksTheOrder`).
* Decoding base32hex adds a zero octet when the length is not a multiple of five (`Base32Hex.RoundTrip`), and a type
  bitmap drops types from 255 on (`NsecBitmap.RoundTripIff`).

Where comments and code disagree the code is followed: the comment at `pdns/pdns/packetcache.cc:174-219` says that the
scan can stop at the first name that does not match, which is so only under the condition above; the comment at
`splitpipe/splitpipe.cc:582` speaks of room for at least one octet where the test also admits none.

## Model

| member | source | states |
|---|---|---|
| Octets.IEquals | pdns/pdns/misc.hh:334-346 | the comparison loop is equality of the strings with A to Z folded |
| DnsNames.UnescapeEscape | pdns/pdns/dnswriter.cc:243-246 | the writer's two replacements undo the reader's escaping of dots and backslashes, whatever octets a label holds |
| DnsNames.LabeltokUnescape | pdns/pdns/dnswriter.cc:174-197 | the tokenizer loop cuts a text at its unescaped dots and says whether anything was escaped |
| DnsNames.TokenizeDotted | pdns/pdns/dnswriter.cc:174-197 | the text of a name is cut into exactly its labels |
| DnsNames.TextInjective | pdns/pdns/dnswriter.cc:216-240 | two names without empty labels and with the same text up to case are the same name up to case |
| DnsNames.ChopInjective | pdns/pdns/dnswriter.cc:216-240 | the keys of the label map, texts without their last dot, tell names apart up to case |
| DnsWriter.FindEntry | pdns/pdns/dnswriter.cc:164-171 | the first entry whose key is equal without case, or the end |
| DnsWriter.EmitPiecesOfName | pdns/pdns/dnswriter.cc:213-266 | the loop over the pieces of a text emits what the name emits label by label |
| DnsWriter.PacketWriter.Open | pdns/pdns/dnswriter.cc:8-50 | the constructor's state is that of the specification |
| DnsWriter.PacketWriter.WriteLabel | pdns/pdns/dnswriter.cc:200-267 | xfrLabel, with its loop and its label map, does to the writer what the specification says, errors included |
| DnsWriter.PacketWriter.BeginRecord | pdns/pdns/dnswriter.cc:57-83 | startRecord commits a pending record and writes the owner, as a see-question pointer where it may |
| DnsWriter.PacketWriter.CommitRecord | pdns/pdns/dnswriter.cc:299-333 | commit inserts the ten header octets, moves the record and counts it in its section, or fails |
| DnsWriter.PacketWriter.RollbackRecord | pdns/pdns/dnswriter.cc:292-297 | rollback restores the content to the marker and keeps the label map |
| DnsCompression.EmitNameOk | pdns/pdns/dnswriter.cc:216-266 | for every label map whose entries are right: the octets emitted for a name decode to it, every pointer goes to a smaller offset, every new entry is below 16384 and right |
| DnsCompression.FindSkipsPending | pdns/pdns/dnswriter.cc:226-229 | entries added for the name that is being written are never its own match |
| DnsCompression.MapRefines | pdns/pdns/dnswriter.cc:68-82 | filling in octets that were still open, such as the record header, keeps every entry of the label map right |
| DnsReader.GetLabel | pdns/pdns/dnsparser.cc:426-455 | the reading loop with its hop limit is the specification, errors included |
| DnsReader.ReadsName | pdns/pdns/dnsparser.cc:426-455 | an encoded name is read back, ending just behind it, exactly when it needs no more hops than are left; otherwise the reader reports a loop |
| DnsRecords.RecordsRefine | pdns/pdns/dnswriter.cc:299-317 | records stay where and what they are when open octets are filled in |
| DnsParser.ParsePacket | pdns/pdns/dnsparser.cc:195-285 | the parser with its loops is the specification: sections by position, errors, and adjusted counts for truncated packets |
| DnsParser.PacketReader.GetRest | pdns/pdns/dnsparser.cc:457-465 | xfrBlob reads up to the end of the record, nothing for a record without data, and fails when the packet ends where it starts |
| DnsParser.PacketReader.GetRecord | pdns/pdns/dnsparser.cc:241-254 | owner, header and content of one record are read in this order |
| DnsPacket.OpenOk | pdns/pdns/dnswriter.cc:8-50 | a new packet holds its question and counts no records |
| DnsPacket.PutFields | pdns/pdns/dnsrecords.hh:473-476 | the xfr calls of a record content do to the writer what the specification of its fields says |
| DnsPacket.StartOwnerOk | pdns/pdns/dnswriter.cc:68-82 | starting a record after a settled packet leaves the packet settled up to the marker, the owner encoded, and the label map right for the octets as they will be after commit |
| DnsPacket.WriteFieldsOk | pdns/pdns/dnswriter.cc:102-130 | writing the fields of a record keeps that, with the fields at the end of the octets to be |
| DnsPacket.CommitOk | pdns/pdns/dnswriter.cc:299-333 | commit turns an open record into one more record of a settled packet, counted in its section |
| DnsPacket.RollbackOk | pdns/pdns/dnswriter.cc:292-297 | rollback gives back the settled packet before the open record |
| DnsReadBack.NameReads | pdns/pdns/dnsparser.cc:378-384 | a name of at most ten labels written anywhere in a packet under 64K is read back up to case and the reader stands just behind it |
| DnsReadBack.RecordReads | pdns/pdns/dnsparser.cc:288-303 | a written record is read back with owner, type, class, TTL and fields; only one that ends in an empty blob behind other fields and at the end of the packet is out of range |
| DnsReadBack.RecordsRead | pdns/pdns/dnsparser.cc:231-258 | the records of a packet are read back in order, unless the last one ends in an empty blob at the end of the packet |
| DnsReadBack.EmptyRestFails | pdns/pdns/dnsparser.cc:457-465 | fields that end in an empty blob with nothing behind it are out of range for the reader |
| DnsRoundTrip.WriteAllOk | pdns/pdns/dnswriter.cc:57-83 | any sequence of records can be written one after the other, committed explicitly or by the next start |
| DnsRoundTrip.PutRecord | pdns/pdns/dnswriter.cc:57-83 | startRecord and the xfr calls behind it are the writing of a record the round trip is about |
| DnsRoundTrip.SettledParses | pdns/pdns/dnsparser.cc:195-285 | a settled packet parses to its question and its records with matching counts, or is rejected when its last record ends in an empty blob behind other fields |
| DnsRoundTrip.PacketRoundTrip | pdns/pdns/dnsparser.cc:195-285 | a question and records in section order, written and closed by a commit, parse to the same question and records; closed by a rollback, to all but the open record; rejected exactly when the last record left ends in an empty blob behind other fields |
| DnsLimits.TowerReadsUpToTen | pdns/pdns/dnsparser.cc:428-429 | for every number of labels a name that the writer produces and the reader reads exactly up to ten labels |
| DnsLimits.LongLabelNeverRead | pdns/pdns/dnsparser.cc:431-453 | whatever the packet and the position, a name with a label of more than 191 octets is never what the reader gives |
| DnsLimits.LabelsComeBackIff | pdns/pdns/dnswriter.cc:213-266 | a name of at most ten labels that is written comes back up to case exactly when no label has more than 191 octets |
| DnsLimits.RollbackThenSameName | pdns/pdns/dnswriter.cc:292-297 | a new owner started, rolled back and started again is written as a pointer to itself, which no reader can follow |
| DnsRollback.RollbackKeepsIff | pdns/pdns/dnswriter.cc:292-297 | a record written and rolled back leaves a right writer exactly when it added nothing to the label map, which can be told beforehand as the next row says |
| DnsRollback.RecordRemembersNothingIff | pdns/pdns/dnswriter.cc:216-240 | writing a record adds nothing exactly when its owner is the question, and otherwise each of its names, owner and fields, is the root, is remembered already and may be compressed, or comes at 16384 or later |
| DnsRollback.RoundTripWithRollbacks | pdns/pdns/dnswriter.cc:292-297 | records kept and records rolled back in any order: as long as those rolled back remember no name, the packet parses as if they had never been written |
| DnsLimits.ParserLimits | pdns/pdns/dnsparser.cc:231-240 | whatever the packet, parsed records come in section order and are no more than the header counts |
| DnsLimits.RoundTripIff | pdns/pdns/dnswriter.cc:59-60 | a packet comes back whole exactly when every record but the last was committed explicitly or holds data and the last one does not end in an empty blob behind other fields |
| DnsLimits.EmptyKeysRejected | pdns/pdns/dnsparser.cc:457-465 | a packet of one or more key records with an empty key is rejected |
| DnsAgeing.AgeDnsPacket | pdns/pdns/dnsparser.cc:588-621 | the walk in place over the packet, stopping silently where it is malformed, is the function the next rows are about |
| DnsAgeing.AgeRecordsPointwise | pdns/pdns/dnsparser.cc:604-615 | an octet changes only if it belongs to the TTL of a record before the first OPT or malformed one, and then by the decrement modulo 2^32 |
| DnsAgeing.AgeKeepsShape | pdns/pdns/dnsparser.cc:604-615 | ageing moves no TTL and no record |
| DnsAgeing.AgeComposes | pdns/pdns/dnsparser.cc:588-621 | for every octet string, ageing twice is ageing once by the sum modulo 2^32 |
| DnsAgedPackets.AgedAsWritten | pdns/pdns/dnsparser.cc:588-621 | ageing a written packet, its records in any order and of any type, gives octet for octet the packet written with every TTL before the first OPT record lower by the seconds modulo 2^32 |
| DnsAgedPackets.AgedPacketRoundTrip | pdns/pdns/dnsparser.cc:588-621 | so an aged packet parses to the same question and records but for those TTLs |
| DnsAgeing.PacketMangler.SkipLabel | pdns/pdns/dnsparser.cc:524-534 | skips an encoded name, up to its end or its first pointer |
| Md5Stream.AbsorbConcat | splitpipe/md5.cc:194-199 | absorbing whole blocks one after the other is absorbing their concatenation |
| Md5Stream.PaddingLength | splitpipe/md5.cc:230-234 | the padding has the length md5_finish computes and with the length field always ends on a block boundary |
| Md5Stream.CarryCounts | splitpipe/md5.cc:179-183 | the two words count the octets modulo 2^64, carry included |
| Md5Stream.LengthWords | splitpipe/md5.cc:223-228 | the two length words, put together bit by bit from shifted words, are the length in bits modulo 2^64 |
| Md5Stream.Md5Context.Update | splitpipe/md5.cc:170-207 | for every chunk the context has absorbed all whole blocks of what it was fed and buffers the rest |
| Md5Stream.Md5Context.Finish | splitpipe/md5.cc:217-240 | the digest is that of everything fed, padded as sections 3.1 and 3.2 of RFC 1321 say |
| Md5Stream.MD5Summer.Feed | splitpipe/md5.cc:249-257 | appends to what is summed; of an input of 4 GB and more only the length modulo 2^32 |
| Md5Stream.RunningChecksums | splitpipe/md5.cc:249-269 | for every chunking, feeding and getting in turn gives the digest of every prefix, so getting disturbs nothing |
| RingBuffers.RoomPlusAvailable | splitpipe/ringbuffer.hh:42-60 | room and available add up to the capacity, and are in range exactly in the positions that can be reached |
| RingBuffers.GetSafeIff | splitpipe/ringbuffer.hh:99-106 | get keeps the positions right exactly when the buffer is not an empty one that rests at the end |
| RingBuffers.StoreSafeIff | splitpipe/ringbuffer.hh:76-97 | exactly the stores that fit lead to right positions with that much more available |
| RingBuffers.StoreKeeps | splitpipe/ringbuffer.hh:84-96 | a block written in one piece or around the end is a block appended to the queue |
| RingBuffers.RingBuffer.Store | splitpipe/ringbuffer.hh:76-97 | appends the block to the queue, or refuses it whole when there is no room |
| RingBuffers.RingBuffer.Get | splitpipe/ringbuffer.hh:99-106 | gives a non-empty contiguous front part of the queue and leaves the queue alone |
| RingBuffers.RingBuffer.Advance | splitpipe/ringbuffer.hh:108-113 | drops octets from the front of the queue |
| SplitPipe.VolumeBound | splitpipe/splitpipe.cc:580-628 | in every reachable state volumes with their 22 trailer octets are below the size asked for, and the open stretch promises no more than is buffered and than the volume has room for |
| SplitPipe.NoVolumeEndsInsideAStretch | splitpipe/splitpipe.cc:604-629 | a volume or session is closed only between stretches |
| SplitPipe.RunConserves | splitpipe/splitpipe.cc:554-656 | in every run what was sent and what is buffered is what was read, in order |
| SplitPipe.SplitWritesASession | splitpipe/splitpipe.cc:438-689 | for every chunking of the input and every pattern of partial writes a finished run wrote one well-formed session that carries the input; nothing for no input; an empty stretch exactly when one was started with three octets left |
| SplitPipeBound.VolumeBoundIff | splitpipe/splitpipe.cc:401 | all volumes of all runs keep to the size asked for exactly when that has room for the per-volume stretches and the 2048 octets set aside |
| SplitPipeProgress.GetsOutIff | splitpipe/splitpipe.cc:573-656 | every input has a run that gets all of it out and ends, exactly unless the size asked for leaves room for zero to three octets behind the per-volume stretches and the 2048 octets set aside; then only the empty input has |
| SplitPipeLoop.SplitpipeClass.PerVolumeStretches | splitpipe/splitpipe.cc:297-316 | UUID, date, label if there is one, and number, as stretches |
| SplitPipeLoop.SplitpipeClass.OutputRound | splitpipe/splitpipe.cc:574-656 | one round of the output loop over ring buffer and checksum is a step of the model |
| SplitPipeLoop.SplitpipeClass.OutputLoop | splitpipe/splitpipe.cc:573-660 | the output loop is a sequence of such steps |
| SplitPipeLoop.SplitpipeClass.Go | splitpipe/splitpipe.cc:438-689 | for every sequence of events the program makes a run of the model over what it read |
| JoinPipe.StepsReach | splitpipe/joinpipe.cc:144-247 | what is out at any time is a prefix of what is out in the end |
| JoinPipe.ReadsHeader | splitpipe/joinpipe.cc:155-194 | volumes of another session or with another number are replaced without output, the expected one is read on |
| JoinPipe.ReadsPieces | splitpipe/joinpipe.cc:195-199 | Data stretches go out in order, unless one is empty, and that ends the joining |
| JoinPipe.ReadsVolume | splitpipe/joinpipe.cc:144-247 | a volume gives its data or nothing, its checksum is right, and what follows its end is not looked at |
| JoinOrder.JoinInOrder | splitpipe/joinpipe.cc:144-247 | joining the volumes of a session in order ends well exactly when there is no empty stretch and there are at most 65536 volumes, and then gives the stream |
| JoinOrder.JoinAnyOrder | splitpipe/joinpipe.cc:155-217 | whatever complete volumes of sessions with distinct UUIDs are inserted in whatever order: at all times the output is a prefix of the stream of the session whose volume came first, no failure, and at the end all of it |
| JoinOrder.LongSessionTaken | splitpipe/joinpipe.cc:176-180 | the 65537th volume of a longer session inserted first is taken for the first one: its data goes out, also when the stream does not begin with it |
| JoinOrder.BoundIsNeeded | splitpipe/joinpipe.cc:176-180 | there is a recording of 65537 volumes, joinable but for their number, of which a volume inserted first gives what is no beginning of its stream |
| JoinPipeLoop.Joinpipe.ReadStretch | splitpipe/joinpipe.cc:144-246 | one turn of the loop over read buffer and checksum is a step of the model |
| JoinPipeLoop.Joinpipe.Join | splitpipe/joinpipe.cc:144-247 | the whole loop, which always ends, is the model run to its end |
| JoinPipeLoop.SplitThenJoin | splitpipe/splitpipe.cc:573-689 | for every non-empty input, chunking and pattern of partial writes, joining in order ends well exactly when no stretch was started with three octets left and there are at most 65536 volumes, and then what comes out is what went in |
| MTasker.DeadlineIsLater | pdns/pdns/mtasker.cc:169-181 | a deadline computed from a clock that is not behind is not past |
| MTaskerRuns.SliceKeeps | pdns/pdns/mtasker.cc:161-209 | whatever a running thread does, it ends up in exactly one place, and queues only grow at their ends |
| MTaskerRuns.RunKeeps | pdns/pdns/mtasker.cc:260-311 | in every kernel state of every run each live thread is in exactly one of run queue, zombie queue and waiters, once; threads created are live plus reaped; waiters have distinct keys and are sorted by deadline |
| MTaskerWakeups.FirstInFirstOut | pdns/pdns/mtasker.cc:291-300 | the thread at position k of the run queue is the one the schedule call after k others switches to |
| MTaskerWakeups.RunRecords | pdns/pdns/mtasker.cc:161-242 | in every run waitEvent answers only right after an event was sent to its key, with that key and value, and times out only past its deadline; and the running thread's number is always right |
| MTaskerWakeups.ReturnsOnce | pdns/pdns/mtasker.cc:219-242 | a wait ends at most once: between two returns for a key lies a new wait for it |
| MTaskerTimeouts.PassWakesTheLate | pdns/pdns/mtasker.cc:308-335 | with a clock that does not go back the pass over the waiters ends exactly when every waiter has a deadline; then it woke the late ones, each once and in order of deadline, no other, and none that waits is late |
| MTaskerTimeouts.LateKeysAreTheLate | pdns/pdns/mtasker.cc:319-334 | stopping at the first waiter that is not late misses none |
| MTaskerTimeouts.InsertedPast | pdns/pdns/mtasker.cc:319-331 | a waiter inserted while the pass runs is not visited as late and does not make the iterator skip one |
| MTaskerTimeouts.ClockGoesOn | pdns/pdns/mtasker.cc:169-181 | threads whose clock is not behind the scheduler's never wait for a deadline that is past |
| MTaskerKernel.Scheduler.FindWaiter | pdns/pdns/mtasker.cc:221-226 | the waiter for a key, if there is one |
| MTaskerKernel.Scheduler.WaitEvent | pdns/pdns/mtasker.cc:161-189 | inserts the waiter in order of deadline, or fails when somebody waits for the key |
| MTaskerKernel.Scheduler.SendEvent | pdns/pdns/mtasker.cc:219-242 | the state change of sendEvent and its result |
| MTaskerKernel.Scheduler.Schedule | pdns/pdns/mtasker.cc:289-337 | the state change of schedule, its result, and whether it comes back |
| ByteOrder.ILexicographicalCompare | pdns/pdns/misc.hh:314-330 | the comparison loop is the lexicographic order on folded strings |
| ByteOrder.LessTotal | pdns/pdns/misc.hh:314-330 | exactly one of less, equal and greater |
| RecordVector.EqualRange | pdns/pdns/recursor_cache.cc:241 | halving a sorted vector finds exactly the records with the data |
| RecordVector.SortSorts | pdns/pdns/recursor_cache.cc:263-270 | sorting gives a sorted permutation |
| RecursorEntry.CnameOverwritten | pdns/pdns/recursor_cache.cc:204-270 | an authoritative CNAME or SOA entry, live or not, gives way to data without authority: none of its records is kept, and it holds exactly the data sent, sorted, each once and with the latest time sent for it |
| RecursorEntry.RefreshKeeps | pdns/pdns/recursor_cache.cc:223-264 | an authoritative NS set taken as a refresh drops no stored record and raises the expiry of no live one, each data being sent once |
| RecursorEntry.RefreshRaisesIff | pdns/pdns/recursor_cache.cc:223-266 | a refresh raises the expiry of a live NS record of the entry exactly when times may be lowered and the record is sent more than once, first expired and from then on only with later times than it had; also when the entry holds the data twice |
| RecursorEntry.RefreshRaises | pdns/pdns/recursor_cache.cc:223-266 | an entry and a refresh of it that does |
| RecursorEntry.ReplacedSorts | pdns/pdns/recursor_cache.cc:226-270 | the stored vector stays sorted |
| RecursorEntry.GetTTD | pdns/pdns/recursor_cache.hh:75-84 | the earliest expiry of the entry |
| RecursorCache.RangeIsExact | pdns/pdns/recursor_cache.cc:110-114 | equal_range on a name holds exactly the entries with that name in any case |
| RecursorCacheRuns.GetIsFresh | pdns/pdns/recursor_cache.cc:110-151 | get through the remembered range answers, and moves in the order of use, what it would after looking up afresh |
| RecursorCacheRuns.GetFinds | pdns/pdns/recursor_cache.cc:123-147 | get finds exactly the live records of the matching types under the name, whatever its case |
| RecursorCacheHistory.RunKeeps | pdns/pdns/recursor_cache.cc:105-358 | after any sequence of get, replace, wipe, age and prune: the index is ordered, all vectors are sorted, the remembered range is fresh, and the order of use holds exactly the entries, each once |
| RecursorCacheHistory.AfterAnyHistory | pdns/pdns/recursor_cache.cc:105-151 | after any history get answers as the two rows above say |
| RecursorCacheHistory.TrustAfterAnyHistory | pdns/pdns/recursor_cache.cc:186-221 | after any history, an authoritative entry that is no CNAME or SOA stays as it is through any further lookups and data without authority, for any names, that come before one of its records expires, and get still answers its live records |
| RecursorCacheHistory.CnameOverwrittenInCache | pdns/pdns/recursor_cache.cc:186-277 | after any history, data without authority for an authoritative CNAME or SOA entry leaves the data sent and nothing else |
| RecursorCacheHistory.RefreshKeepsInCache | pdns/pdns/recursor_cache.cc:223-277 | after any history, a refresh of name servers that sends each data once drops no stored record and raises the expiry of no live one |
| RecursorCacheHistory.PrunedSize | pdns/pdns/recursor_cache.cc:352-358 | after any history a prune of too many entries leaves the maximum or one less |
| RecursorCacheOps.StoreRecord | pdns/pdns/recursor_cache.cc:236-266 | updating the copies found by halving is updating all records with that data; otherwise the record is added and the vector sorted |
| RecursorCacheOps.ReplaceEntry | pdns/pdns/recursor_cache.cc:186-277 | replace on an entry, with its loops, is the function the rows above are about |
| RecursorCacheOps.MemRecursorCache.Get | pdns/pdns/recursor_cache.cc:105-151 | the result and the new state of get |
| RecursorCacheOps.MemRecursorCache.Replace | pdns/pdns/recursor_cache.cc:186-277 | the new state of replace |
| RecursorCacheOps.MemRecursorCache.DoWipeCache | pdns/pdns/recursor_cache.cc:279-294 | removes one type of a name or all of them and says how many |
| RecursorCacheOps.MemRecursorCache.DoAgeCache | pdns/pdns/recursor_cache.cc:296-321 | gives an entry that lives longer than the new time to live exactly that, and nothing else |
| RecursorCacheOps.MemRecursorCache.DoPrune | pdns/pdns/recursor_cache.cc:352-358 | keeps the entries the pruning leaves |
| CachePruning.PruneToMaximum | pdns/pdns/cachecleaner.hh:7-59 | over the maximum, exactly the maximum or one less is left, a suffix of the order of use once the expired ones that were scanned are gone, and no more than five times as many as are too many are scanned |
| CachePruning.OneLessIff | pdns/pdns/cachecleaner.hh:34-47 | one less is left exactly when more expired ones than are too many come up in the entries looked at |
| CachePruning.PruneExpired | pdns/pdns/cachecleaner.hh:26-50 | at or below the maximum only the expired ones among the first thousandth go |
| CachePruning.Collection.Prune | pdns/pdns/cachecleaner.hh:7-59 | the loop and the cut are the function of the rows above |
| CachePruning.Collection.Move | pdns/pdns/cachecleaner.hh:62-71 | the entry goes to the front or the back and the others keep their order |
| BackwardsOrder.CIBackwardsStringCompare | pdns/pdns/packetcache.hh:47-62 | the loop is the order on names from the back with the end as a zero octet |
| BackwardsOrder.StrictWeakOrder | pdns/pdns/packetcache.hh:47-62 | on names without zero octets a strict weak order whose classes are equality without case |
| BackwardsOrder.WrongTieIff | pdns/pdns/packetcache.hh:47-62 | for every pair of names: being in no order is being equal but for case, unless one ends in the other with a zero octet in front |
| BackwardsOrder.NulBreaksTheOrder | pdns/pdns/packetcache.hh:58-59 | with zero octets being in no order is not transitive |
| PacketCache.FoundIff | pdns/pdns/packetcache.cc:268-278 | the lookup finds the entry with the key, the case of the name aside, if it is there |
| PacketCachePurge.InsertThenGet | pdns/pdns/packetcache.cc:131-161 | after an insert the key gives the value until it expires and every other key what it gave before |
| PacketCachePurge.ZonesAreNeverFound | pdns/pdns/packetcache.cc:141-148 | no history makes a lookup for a zone succeed |
| PacketCachePurge.PurgeNameIs | pdns/pdns/packetcache.cc:241-245 | a plain match removes exactly the entries with that name in any case |
| PacketCachePurge.SuffixOnlyZone | pdns/pdns/packetcache.cc:220-239 | a suffix purge removes only names equal to the suffix or ending in dot and suffix |
| PacketCachePurge.SuffixCompleteIff | pdns/pdns/packetcache.cc:220-239 | it removes all of them exactly when there is not both a cached name with the suffix preceded by a character that sorts before the dot and a cached name below the suffix |
| PacketCachePurge.CountIsRightIff | pdns/pdns/packetcache.cc:164-249 | for all lists of matches the returned count is the number of entries removed exactly when no match is plain or the matches before the last plain one removed nothing |
| PacketCachePurge.CountIsRightByNames | pdns/pdns/packetcache.cc:164-249 | by the names cached at the start: exactly when no match before the last plain one has anything to remove, a name that is there, or for a suffix the suffix itself or a name below it with none that blocks |
| PacketCachePurge.CountForgets | pdns/pdns/packetcache.cc:241-245 | two cached names purged by two plain matches give a count of one |
| PacketCacheOps.PacketCache.Insert | pdns/pdns/packetcache.cc:131-161 | the new map of insert, with and without the lock |
| PacketCacheOps.PacketCache.GetEntryLocked | pdns/pdns/packetcache.cc:268-278 | the value of the entry if it is there and not expired |
| PacketCacheOps.PacketCache.Purge | pdns/pdns/packetcache.cc:164-249 | the new map and the returned count of purge |
| Base32Hex.ExtractsQuintet | pdns/pdns/base32.cc:11-24 | what is extracted are the five bits section 7 of RFC 4648 takes, and the octet read behind the string never matters |
| Base32Hex.SetsQuintet | pdns/pdns/base32.cc:26-50 | setting five bits extends a prefix of the octets by them |
| Base32Hex.RoundTrip | pdns/pdns/base32.cc:67-118 | decoding undoes encoding when five divides the length, and adds one zero octet otherwise |
| Base32Hex.ToBase32Hex | pdns/pdns/base32.cc:67-97 | the encoding loops are the function of the row above |
| Base32Hex.FromBase32Hex | pdns/pdns/base32.cc:100-118 | the decoding loop is |
| NsecBitmap.RoundTrip | pdns/pdns/nsecrecords.cc:25-75 | decoding gives back the types below 255, in an NSEC record and in an NSEC3 record |
| NsecBitmap.RoundTripIff | pdns/pdns/nsecrecords.cc:25-75 | all types come back, in either record, exactly when all are below 255 |
| NsecBitmap.ToBitmap | pdns/pdns/nsecrecords.cc:29-45 | the encoding loop is the function of the rows above |
| NsecBitmap.FromBitmap | pdns/pdns/nsecrecords.cc:54-72 | the decoding loops are, with their three errors; the length octet is signed |
| NsecBitmap.FromBitmap3 | pdns/pdns/nsecrecords.cc:161-186 | the same for NSEC3, where there may be no bitmap at all |

## Left out

- DnsRoundTrip.PacketRoundTrip: names have at most ten labels of at most 191 octets and the packet stays below 64K, as the reader needs; records come in section order, as the parser needs; the types are those that consist of fields alone, or unknown ones.
- DnsParser.ParsePacket: contents that the program reads with a parser of their own (text, HINFO, LOC, NAPTR, NSEC, NSEC3, NSEC3PARAM, SPF, TSIG and the two fancy types) are taken as raw octets, so errors inside them are not modelled.
- DnsParser.PacketReader.GetRecord: the same; types that have a field list but are never registered (KX, IPSECKEY, MR, DHCID) are raw octets in the program as well.
- NsecBitmap.RoundTrip: a set with members and none below 255 is excluded, because the code then steps back before the first member; `RoundTripIff` and `ToBitmap` exclude it too. Bitmaps are shorter than 4 GB.
- RecursorEntry.RefreshKeeps: each data is sent once; `RefreshRaisesIff` says what happens otherwise.
- Md5Stream.RunningChecksums: chunks are below 4 GB; `MD5Summer.Feed` says what happens otherwise.
- MTaskerTimeouts.PassWakesTheLate: the clock does not go back; otherwise a thread that waits for a past deadline again and again can keep the pass going.
- The zone-file side of records and the reading and writing of text: they rest on a tokenizer and library conversions.
- The layouts are those of `reportAllTypes`; a program that registers fewer types reads the others as raw octets.
- Flags of the packet header, owner names that do not end in a dot, canonic writing and EDNS options.
- The 64 rounds of the MD5 compression function, which is any function here.
- Sockets, pipes, `select`, fork, the terminal and the display; reads, writes and the clock are inputs. The user's break, an output command that dies while it is written to, and metadata that cannot be written whole.
- The device list of joinpipe: every opening takes the next inserted volume.
- Stacks and context switches of MTasker, and calls of sendEvent or schedule from inside a thread. Numbers of threads do not wrap.
- The internals of multi_index containers: an ordered index is a sequence with the positions its order gives.
- DNSRR2String and String2DNSRR: records in the record cache are their stored data.
- std::sort may put records with the same data in any order; here they keep theirs.
- The periodic cleanup of the packet cache, its counters and its locks.
- The recursor's packet cache, the query distributor, signing and key files.
