# Verified models of Redis 2.8

Redis keeps its data in hash tables that are resized a bucket at a time, logs every write in a file that
it rewrites behind its own back, and speaks a counted text protocol to clients whose bytes come in any
chunks. This project models the parts of the C source where such state is kept step by step, and proves
what they are for: that a table under incremental rehashing always stands for one map, exactly when a
stateless scan sees every key, that a restart from the append only file gives back the live data, that
any chunking of a request stream executes the same commands, that optimistic transactions run if and only
if no watched key was touched, that compression and the intset and HyperLogLog encodings lose nothing.

Code that updates objects in place is modelled by classes and methods with loops (`Dict`, `DictIter`,
`Lzf`, `Hll`, `Aof`, `Networking`, `ReplyQueue`, `Multi`, `Intset`, `Pqsort`, `Config`, `Bitops`,
`Popcount`, `Rand`, `Adlist`). Each is proved against functions on values, kept in a module of its own
where it is long (`DictModel`, `LzfFormat`, `AofModel`, `RespParser`, `MultiModel`, `ConfigModel`), and
the theorems about whole runs are lemmas about those functions.

| modules | what they model |
|---|---|
| Words, ScanCursor, DictModel, DictGrowth, Dict, DictScan, DictIter, DictIterRun | dict.c: incremental rehashing, growing and shrinking, lookup and update, dictScan, safe iterators |
| LzfFormat, LzfDecode, Lzf | lzf_c.c and lzf_d.c |
| HllSparse, HllDense, Hll, HllHistory | hyperloglog.c: both register encodings, PFADD, PFMERGE |
| Resp, AofLog, AofModel, AofRun, Aof, AofRewrite, AofTorn | aof.c: feeding, flushing with short writes, loading, background rewriting |
| RespParser, RespGrammar, RespStream, Networking | networking.c, the input side |
| ReplyStream, ReplyQueue | networking.c, the output side |
| MultiModel, MultiRun, Multi, Adlist | multi.c: WATCH, MULTI, EXEC; adlist.c |
| IntsetBytes, Intset | intset.c on its bytes |
| Pqsort | pqsort.c |
| Crc64, Migrate | crc64.c and the payload check of DUMP and RESTORE |
| Popcount, Bitops | bitops.c: BITCOUNT, BITPOS, BITOP |
| Rand | rand.c |
| ConfigModel, Config, ConfigFile, ConfigPlaces | config.c: CONFIG REWRITE |
| Options, Bytes | shared types |

`dafny verify dfyconfig.toml` checks the whole project.

## Findings

Behaviour that the source or its comments promise and that the proofs show not to hold, with the exact
condition under which it does.

| what is promised | what holds | members |
|---|---|---|
| dictScan returns every element that is present from the start to the end of an iteration (dict.c:733-735) | Unless a later call with a smaller mask comes back to a bucket that an unaligned call left half seen, a scan visits every hash if and only if each call is aligned: between the masks of the smaller and the larger table the cursor has no set bit above a clear one. Growing, and shrinking to one half, always align. Shrinking to a quarter or less need not: with 16 buckets, a cursor of 8 and a rehash to 4 buckets, a key whose hash ends in binary 0100 is never returned. | DictScan.ScanVisitsAllIffAligned, DictScan.GentleRunIsAligned, DictScan.UnalignedScanMissesKeys, DictScan.ShrinkingDictLosesKey |
| A correct request is executed, however it arrives (networking.c:1101-1237) | Of a stream of correct commands, a client is refused if and only if, at some call of the parser, a header line is not all there while more than 64 KB are in the buffer. That holds for every beginning of a stream. With reads as long as readQueryFromClient asks for and commands that never block, it does not come about, wherever the stream stops; a client that is blocked collects its input and can be cut off when it is released. | RespStream.AnyChunks, RespStream.ReadsExecuteStream, RespStream.BlockedClientIsRefused |
| An inline request may end with a line feed alone (networking.c:1045-1047) | The parser then also removes the byte behind the line feed, the first one of the next request. | RespStream.InlineLeaves |
| reply_bytes is the memory that the reply list takes | Removing an empty node subtracts nothing (networking.c:961-964). So reply_bytes is that memory and the cost of every empty node removed so far, and it is that memory alone if and only if no empty node was removed or an empty string takes none. A reply too long for the buffer with an empty one behind it is enough. | ReplyQueue.Client.AccountIsRight, ReplyQueue.Client.SendReply, ReplyQueue.LongAndEmptyReply |
| While a safe iterator runs, dictAdd, dictFind and other functions may be called (dict.h:88-91) | Of deletions this holds if and only if the key is not that of the entry that dictNext has saved to go on with. Deleting that one leaves the iterator with an entry that is gone. | DictIterRun.DeleteUndisturbedIff, DictIterRun.DeletingNextBreaks |
| The append only file loads after a restart | After a short write that ftruncate could not undo, the file loads if and only if the write ended right behind a command and not inside a transaction, between a MULTI and its EXEC. | AofTorn.TornFileLoads, AofTorn.RunLoads, AofTorn.TornRunLoads, AofTorn.TornInsideMulti |
| Xor_In is all ones (crc64.c:8) | The check value in the same comment comes out if and only if the register starts at 0: all ones, and every other start, give another. | Crc64.CheckValue |

## Model

| member | source | states |
|---|---|---|
| DictModel.RehashKeepsMap | redis-2.8/src/dict.c:294-331 | Any number of incremental rehash steps leaves the map of the dictionary, its entry count and its iterators as they were, and the result says whether entries remain to be moved. |
| DictModel.RehashTerminates | redis-2.8/src/dict.c:294-331 | Rehashing a table of S buckets from bucket r on is over after S - r + 1 steps at most. |
| DictModel.RehashIndexInBounds | redis-2.8/src/dict.c:304-308 | The assertion of dictRehash holds: while entries are left, the search for the next bucket that is not empty ends inside the old table. |
| Dict.Dict.Rehash | redis-2.8/src/dict.c:294-331 | The loop over bucket arrays updated in place leaves exactly the state that the step function prescribes. |
| DictModel.NextPowerIsLeast | redis-2.8/src/dict.c:918-928 | The size of a new table is the least power of two, from the initial size up, that is not below the request, and fits an unsigned long; requests from LONG_MAX on come back as LONG_MAX. |
| DictGrowth.LookupMovesOn | redis-2.8/src/dict.c:360-366 | While no iterator is registered, every dictFind and every dictDelete takes a rehash at least one bucket further, or ends it. |
| DictGrowth.AddMovesOn | redis-2.8/src/dict.c:394-420 | So does every dictAdd, which may then begin the next rehash on what was the second table. |
| DictGrowth.LookupsFinishRehash | redis-2.8/src/dict.c:360-366 | A rehash from bucket r of a table of S is over after S - r + 1 lookups of whatever keys. |
| DictGrowth.ExpandsIff | redis-2.8/src/dict.c:881-900 | An empty dictionary gets four buckets. A table with at least as many entries as buckets begins to move into the least power of two for twice its entries, if resizing is allowed or there are more than five entries a bucket; otherwise nothing happens. |
| DictGrowth.AddKeepsLoad | redis-2.8/src/dict.c:881-900 | After dictAdd, a table that is not being moved has no more entries than buckets, or six for each while resizing is disabled. |
| DictGrowth.ResizeIs | redis-2.8/src/dict.c:215-226 | dictResize is refused exactly while resizing is disabled or a rehash is under way; else it begins a rehash into the least power of two, at least four, that has a bucket for each entry. |
| Dict.Dict.Resize | redis-2.8/src/dict.c:215-226 | Shrinking is refused or begins a rehash to that size for the number of entries, and keeps the map. |
| Dict.Dict.Find | redis-2.8/src/dict.c:540-559 | A lookup returns what the map binds the key to, from whichever table holds it, and changes the map in nothing although it moves a bucket. |
| Dict.Dict.Add | redis-2.8/src/dict.c:369-420 | A key that is absent is bound and everything else kept; a key that is present is reported and nothing changes in the map. |
| Dict.Dict.Replace | redis-2.8/src/dict.c:422-447 | The key is bound to the new value whether it was there or not, and the result tells which. |
| Dict.Dict.Delete | redis-2.8/src/dict.c:456-499 | Exactly the given key is gone, the entry count follows, and the result tells whether it was there. |
| ScanCursor.Rev | redis-2.8/src/dict.c:713-721 | Six rounds of swapping blocks of bits reverse a word. |
| Dict.Dict.Scan | redis-2.8/src/dict.c:807-876 | One call hands out exactly the entries of the smaller table's bucket and, of the larger table, those of that bucket's expansions from the cursor on; the new cursor is the incremented reversal. |
| ScanCursor.VisitsStretchIffAligned | redis-2.8/src/dict.c:843-866 | A call deals with every hash between its cursor and the one it returns if and only if the cursor is aligned to the two masks. |
| DictScan.ScanTerminates | redis-2.8/src/dict.c:807-876 | Every call climbs in the order of reversed words, so that a scan ends however tables change. |
| DictScan.ScanVisitsAllIffAligned | redis-2.8/src/dict.c:733-761 | Over whole scans of tables that change in size at will: unless a bucket that an unaligned call left half seen is scanned again, every hash is visited if and only if each call is aligned. |
| DictScan.RescanNeedsSmallerMask | redis-2.8/src/dict.c:755-761 | A scan comes back to a bucket only when a later call has a smaller mask: combinations of low bits that were explored are not visited again otherwise. |
| DictScan.GentleRunIsAligned | redis-2.8/src/dict.c:743-761 | Scans during which the smaller mask does not shrink, or the two tables differ by a factor of two at most, are aligned at every call. |
| DictScan.EmittedIff | redis-2.8/src/dict.c:816-867 | A key is handed out by a call if and only if the call visits its hash, or the key is in the smaller table and shares the masked bits of the cursor. |
| DictScan.ScanReportsEveryPersistentKey | redis-2.8/src/dict.c:733-735 | Whatever is inserted, deleted, moved or resized between the calls, a key present at every call is handed out by one of them if each call during a rehash is aligned. |
| DictScan.UnalignedScanMissesKeys | redis-2.8/src/dict.c:733-735 | The converse on dictionaries: an unaligned call whose bucket is not scanned again has a hash of which no call of the whole scan hands out any key outside the smaller table at that call. |
| DictScan.ShrinkingDictLosesKey | redis-2.8/src/dict.c:733-735 | For every hash function that ends the key's hash in 0100: a complete scan over a dictionary of that one key, shrunk from 16 to 4 buckets after the first call, never hands out the key. |
| DictScan.ResizeShrinks | redis-2.8/src/dict.c:215-226 | The dictionary of that scan after its first call is what dictResize makes of the one before. |
| DictIter.DictIterator.Next | redis-2.8/src/dict.c:626-659 | A step returns an entry that was still ahead and leaves exactly the others ahead, or finds that none is; the first step registers the iterator. |
| DictIter.DictIterator.Release | redis-2.8/src/dict.c:661-670 | An iterator that was started is no longer registered, and nothing else changes. |
| DictIterRun.SafeIteratorReturnsEachKeyOnce | redis-2.8/src/dict.c:626-659 | Over whole iterations with additions, replacements and deletions in between, of any entry but the one that dictNext has saved: a key that is there all the time is returned exactly once. |
| DictIterRun.DeleteUndisturbedIff | redis-2.8/src/dict.c:626-659 | A deletion leaves the iterator sound and every other key as pending as it was if and only if the key is not that of the saved next entry. |
| DictIterRun.DeletingNextBreaks | redis-2.8/src/dict.c:626-659 | For any two keys with the same hash, in one bucket: after the first call of dictNext, deleting the second key leaves an iterator whose next entry is not in the dictionary. |
| Adlist.List.DelNode | redis-2.8/src/adlist.c:159-172 | Unlinking changes the two neighbours and the ends only, and the list's contents lose that one position. |
| Adlist.ListIter.DeleteReturned | redis-2.8/src/adlist.c:206-232 | The node an iterator has just returned may be deleted, and the iterator goes on behind it. |
| Adlist.DeleteKey | redis-2.8/src/multi.c:241-252 | Searching a pointer list and deleting what was found takes out the first occurrence, or changes nothing: the function by which the transaction model takes clients out of lists. |
| Lzf.Decompress | redis-2.8/src/lzf_d.c:56-148 | Every input, well formed or not, comes to what the reference decoder says: the bytes, or E2BIG, or EINVAL. |
| LzfFormat.DecodeEncode | redis-2.8/src/lzf_d.c:56-148 | Whatever literals and overlapping references a compressor chooses, decoding their encoding gives what they expand to. |
| LzfDecode.DecodeIff | redis-2.8/src/lzf_d.c:56-148 | Decoding succeeds exactly on the encodings of tokens that can be expanded into the room there is, with their expansion. It fails with E2BIG exactly at a token that exceeds the room, and with EINVAL exactly at one that is cut off or copies from before the beginning, both told by the bytes of the token. |
| Lzf.Compress | redis-2.8/src/lzf_c.c:99-293 | For any content of the hash table, the output decompresses to the input, is longer by one byte for every 32 at most, and is produced whenever that room and 4 bytes more are there. |
| Lzf.RoundTrip | redis-2.8/src/lzf.h:51-76 | Compressing and then decompressing into a buffer of the input's length gives the input. |
| HllDense.GetSet | redis-2.8/src/hyperloglog.c:337-361 | Writing a 6-bit register that straddles two bytes changes that register and no other. |
| HllDense.RegisterBit | redis-2.8/src/hyperloglog.c:320-361 | Bit k of register r is bit 6r + k of the bytes, the least significant bits of each first. |
| Hll.PatLen | redis-2.8/src/hyperloglog.c:444-468 | The low 14 bits of the register index are those of the hash; the count is from 1 to 50, the bits from 14 up are clear as far as it says, and the one behind them is set or the top bit. |
| Hll.PatternBits | redis-2.8/src/hyperloglog.c:462-467 | That says which count: exactly one number is such a length, and it is the one that all that follows about registers speaks of. |
| Hll.Rewrite | redis-2.8/src/hyperloglog.c:638-882 | Editing the sparse opcodes sets exactly one register, is skipped exactly when the register is large enough, and never grows past the limit. |
| Hll.MergeAdjacent | redis-2.8/src/hyperloglog.c:833-863 | Merging neighbouring opcodes keeps all registers and never lengthens the string. |
| Hll.HyperLogLog.SparseToDense | redis-2.8/src/hyperloglog.c:568-620 | Changing the representation keeps all 16384 registers. |
| Hll.HyperLogLog.Add | redis-2.8/src/hyperloglog.c:1027-1034 | In either representation, across promotion, the element's register becomes the maximum of itself and the pattern; the result tells whether anything changed. |
| HllHistory.RegistersDependOnElementsOnly | redis-2.8/src/hyperloglog.c:1027-1083 | Any two histories of additions and merges over the same set of elements have the same registers: order, repetition and distribution over objects do not matter. |
| HllHistory.Merge | redis-2.8/src/hyperloglog.c:1285-1330 | What PFMERGE writes into the destination's packed registers is what one history of all objects' elements would have given. |
| HllHistory.MergeAllElements | redis-2.8/src/hyperloglog.c:1285-1330 | That history has the elements of the destination and of all others, and no more. |
| AofLog.WiresRead | redis-2.8/src/aof.c:540-652 | The loader reads back exactly the commands that were written. |
| Aof.BufferAppend | redis-2.8/src/aof.c:92-129 | Filling blocks of 10 MB one after the other appends the text to what the blocks hold. |
| Aof.BufferWrite | redis-2.8/src/aof.c:134-154 | The rewrite buffer is written in full and in order, or -1 is returned because some block was not. |
| Aof.Server.FeedAppendOnlyFile | redis-2.8/src/aof.c:447-495 | A command, after a SELECT if another database was selected, reaches the buffer when the log is on and the rewrite buffer when a child runs. |
| Aof.Server.FlushAppendOnlyFile | redis-2.8/src/aof.c:243-383 | Postponing, complete writes, short writes undone or not, and exiting leave exactly the state that the model prescribes. |
| AofModel.LogIsData | redis-2.8/src/aof.c:243-383 | Over every run of commands, transactions, flushes with any outcome, rewrites, failures and switches: while the log is on, file and buffer load to the live data, and a file not torn to the data of the last complete write. |
| AofModel.SwitchIsData | redis-2.8/src/aof.c:1159-1341 | When a rewrite ends after any such run, the new file with the differences collected meanwhile loads to the live data. |
| AofRun.StepMoves | redis-2.8/src/aof.c:168-240 | How each event moves the state: only commands change the data, a fork copies them, the log goes from off to waiting when it is started without a child in the way, from waiting to on when a rewrite succeeds, and to off when it is stopped; a rewrite that fails while the log waits is scheduled again. |
| AofRun.RunIsTold | redis-2.8/src/aof.c:168-240 | Over every run, the live data are the commands applied in order, and the transaction, the child with its copy of the data, and the mode of the log are what the history of events says. |
| AofRun.ModeIs | redis-2.8/src/aof.c:1300-1330 | By the history alone: the log is on if and only if it was never stopped, or was started without a child in the way and not stopped since, and a rewrite has succeeded since that start. |
| AofRun.LogSurvives | redis-2.8/src/aof.c:243-383 | Whenever that is so, outside transactions, file and buffer load to what executing all commands gave. |
| AofRun.FlushOutcome | redis-2.8/src/aof.c:243-383 | A flush waits only with nothing to write, or for less than two seconds behind a background fsync; else it writes all, or, when the write is short, loses nothing and marks the failure, or exits with appendfsync always. |
| AofRun.FlushIsDurable | redis-2.8/src/aof.c:243-383 | Behind a flush that wrote all it had the file alone loads to the live data; with appendfsync always that is so behind every flush that the server survives. |
| AofRun.StopIsDurable | redis-2.8/src/aof.c:168-197 | Stopping the log whose last write is complete leaves a file that loads to the live data. |
| AofRun.PutOffBriefly | redis-2.8/src/aof.c:262-281 | All flushes that put a write off one after the other come within two seconds of the first. |
| AofTorn.CutReads | redis-2.8/src/aof.c:540-652 | The first n bytes of a log read if and only if they end right behind a command, and then as the commands before that point. |
| AofTorn.TornFilePlays | redis-2.8/src/aof.c:281-345 | A file left by a short write of whole commands that could not be undone reads if and only if the write ended right behind a command, and then as the commands before that point. |
| AofTorn.TornFileLoads | redis-2.8/src/aof.c:281-345 | It loads if and only if, moreover, those commands do not end inside MULTI, which the loader refuses too. |
| AofTorn.RunLoads | redis-2.8/src/aof.c:243-383 | After every run that leaves the log on, file and buffer are a base, which a start or a rewrite wrote, and the commands fed since, cut between the two; the file loads if and only if the cut is right behind a command and not inside MULTI. |
| AofTorn.TornRunLoads | redis-2.8/src/aof.c:281-345 | For every first command and every length of a short first write that cannot be undone: the file that this run leaves loads if and only if exactly the SELECT in front of the command was written. |
| AofTorn.TornInsideMulti | redis-2.8/src/aof.c:540-652 | For every first transaction, a short write that stops right behind MULTI leaves a file that reads to its end and is refused all the same. |
| AofRewrite.RewriteListObject | redis-2.8/src/aof.c:675-729 | Writing a list in commands of up to 64 items announces in each header exactly as many items as follow. |
| AofRewrite.RewriteIsLawful | redis-2.8/src/aof.c:911-1020 | Replaying the rewritten file of any 16 databases of strings and lists with expires gives that data: the condition that the theorems about the log ask of a rewrite. |
| RespStream.AnyChunks | redis-2.8/src/networking.c:1101-1276 | Of every beginning of a stream of commands, however it is cut up, with the client blocked and released in between: what is executed is a beginning of what was sent, and every command that has arrived in full once the client is not blocked and was not refused; it is refused exactly when the guard in front of the header errors holds at some call. |
| RespStream.TooBigIsOverflow | redis-2.8/src/networking.c:1110-1162 | The error for a header that is too big arises exactly when a header line is not all there and more than 64 KB are in the buffer. |
| RespGrammar.RequestIff | redis-2.8/src/networking.c:1101-1237 | The parser accepts exactly the texts that begin with an encoded request, and takes that off the front: a header line with the number of arguments, at most a million, and each argument behind a header line with its length, at most 512 MB. |
| RespGrammar.MalformedIff | redis-2.8/src/networking.c:1101-1237 | It refuses a request as malformed if and only if, where the number of arguments or the header of an argument should stand, there is a whole line that is none. |
| RespGrammar.WireEncodes | redis-2.8/src/networking.c:1101-1237 | What clients send is encoded in this sense. |
| RespGrammar.RequestRuns | redis-2.8/src/networking.c:1239-1276 | An encoded request is executed once; behind one that blocks or quits nothing more is, and the rest stays in the buffer. |
| RespGrammar.NumberIff | redis-2.8/src/util.c:265-326 | The numbers that are read are those of 64 bits as they are printed, and no other texts. |
| RespGrammar.InlineExecutes | redis-2.8/src/networking.c:1029-1086 | An inline request executes the words of its line, without the end of the line; one that cannot be split is refused. |
| RespGrammar.KeptAre | redis-2.8/src/networking.c:1072-1083 | Of the words exactly those that are not empty are kept, in their order. |
| RespStream.ReadsExecuteStream | redis-2.8/src/networking.c:1278-1345 | With reads as long as readQueryFromClient asks for, and commands that do not block, no client is refused, and at every point of the stream each command with arguments that has arrived in full has been executed once and in order. |
| RespStream.BlockedClientIsRefused | redis-2.8/src/redis.c:1222-1235 | For every blocking command and every argument of 64 KB or more: reads of permitted length that end inside the header behind the argument, and a release, cut off a client that sent the beginning of a correct stream. |
| RespStream.InlineLeaves | redis-2.8/src/networking.c:1029-1086 | A line ended by carriage return and line feed leaves what follows it; one ended by a line feed alone takes one byte more. |
| Networking.RedisClient.ProcessInputBuffer | redis-2.8/src/networking.c:1239-1276 | The loop over a buffer read at a position, with its special cases for big arguments, leaves the client as the parser on values says. |
| Networking.RedisClient.ProcessUnblocked | redis-2.8/src/redis.c:1222-1235 | A released client's collected input is processed at once. |
| ReplyQueue.Client.AddReply | redis-2.8/src/networking.c:283-337 | A reply is accepted behind all earlier ones, in the buffer while it has room and the list is empty and else in the list, unless the client is closing or no handler can be installed; no node is dropped. |
| ReplyQueue.Client.SetDeferred | redis-2.8/src/networking.c:398-421 | The length of a reply, known last, takes its place before the elements, which were queued first. |
| ReplyStream.LengthComesFirst | redis-2.8/src/networking.c:388-421 | Filling the hole that a deferred length left yields the length followed by everything queued behind it. |
| ReplyQueue.Client.SendReply | redis-2.8/src/networking.c:936-1016 | For any results of the writes: all but the last took something, and sending ends exactly when the queue is empty, a write takes nothing, or more than 64 KB were written. What was written and what is still queued together stay what was accepted. The client is freed if and only if a write failed for good, or nothing is left and it was to be closed; the write handler goes when nothing is left. A socket that takes all drains the queue or more than 64 KB of it, and one that takes nothing gets the client freed. |
| ReplyQueue.Client.DropEmpty | redis-2.8/src/networking.c:961-964 | Removing an empty node loses no byte, and leaves its cost in reply_bytes, which counts one more dropped node. |
| ReplyQueue.Client.AccountIsRight | redis-2.8/src/networking.c:957-977 | In every state, reply_bytes is the memory of the list if and only if no empty node was dropped or empty strings take no memory. |
| ReplyQueue.LongAndEmptyReply | redis-2.8/src/networking.c:957-977 | A client made, given a reply above 16 KB and an empty one, and drained: all was written, the list is empty, and reply_bytes is the cost of an empty string. |
| Multi.Server.UnwatchAllKeys | redis-2.8/src/multi.c:233-257 | Taking a client out of the lists of its keys leaves the index that the model prescribes, with no entry for a key without watchers. |
| MultiModel.StepKeeps | redis-2.8/src/multi.c:202-305 | Every request keeps the two-way index of watched keys inverse, and marks exactly the clients that watch what its commands affected. |
| MultiModel.TouchMarks | redis-2.8/src/multi.c:261-280 | Modifying a key marks a client if and only if it watches the key. |
| MultiModel.FlushMarks | redis-2.8/src/multi.c:282-305 | A flush marks a client if and only if it watches a key that is there, in the flushed database or in any. |
| MultiRun.StateIsTold | redis-2.8/src/multi.c:56-305 | The flags, the queue and the watched keys of every client are what the history of requests says of it; and the commands that were run are those sent outside MULTI and, at every EXEC that was not refused, those queued for it, each once and in order. |
| MultiRun.ExecDecides | redis-2.8/src/multi.c:114-179 | Over every run: EXEC runs the queued commands, in order and with nothing in between, if and only if no watched key was touched since it was watched and no command was rejected; else it runs none. |
| IntsetBytes.AtPut | redis-2.8/src/intset.c:76-94 | A number stored in a slot of 2, 4 or 8 bytes is read back. |
| IntsetBytes.AtApart | redis-2.8/src/intset.c:76-94 | Storing into one slot changes no other, also when the widths differ. |
| Intset.IntSet.Search | redis-2.8/src/intset.c:115-154 | Binary search tells whether a number is present, and its position or the one to insert it at. |
| Intset.IntSet.UpgradeAndAdd | redis-2.8/src/intset.c:157-180 | Widening all elements in place, from the last to the first, keeps their values and adds the new one at the end it belongs to. |
| Intset.IntSet.Add | redis-2.8/src/intset.c:204-231 | The set gains exactly the value, stays sorted without repetitions at the least width that holds all its elements so far, and the result tells whether the value is new. |
| Intset.IntSet.Remove | redis-2.8/src/intset.c:234-251 | The set loses exactly the value, and the result tells whether it was there. |
| Intset.IntSet.Find | redis-2.8/src/intset.c:254-257 | Membership is decided rightly, also for values too wide for the encoding. |
| Pqsort.Sort | redis-2.8/src/pqsort.c:109-197 | The array is a permutation, and every element inside the wanted range is in order with every other element of the array. |
| Pqsort.Joined | redis-2.8/src/pqsort.c:109-189 | Sorting the part behind a pivot keeps what was settled before it: partial sorts of neighbouring parts join. |
| Pqsort.Med3 | redis-2.8/src/pqsort.c:96-107 | The pivot candidate is a median of three. |
| Crc64.TableDivides | redis-2.8/src/crc64.c:42-171 | Each of the 256 table entries is its index divided, bit by bit, by the generator polynomial. |
| Crc64.Crc64 | redis-2.8/src/crc64.c:173-181 | The table loop computes polynomial division one bit at a time. |
| Crc64.BurstChangesCrc | redis-2.8/src/crc64.c:173-181 | Two texts that differ within eight consecutive bytes have different checksums, wherever the bytes are and whatever surrounds them. |
| Crc64.CheckValue | redis-2.8/src/crc64.c:1-11 | The checksum of 123456789 is the check value of the specification if and only if the register starts at 0. |
| Migrate.AcceptedIsCreated | redis-2.8/src/migrate.c:43-60 | A payload is accepted if and only if it is the one that is created for its own body. |
| Migrate.BurstIsRefused | redis-2.8/src/migrate.c:43-60 | A payload that differs from an accepted one within eight consecutive bytes is refused. |
| Migrate.ChangedChecksumIsRefused | redis-2.8/src/migrate.c:43-60 | So is one that differs in the checksum alone. |
| Popcount.RedisPopcount | redis-2.8/src/bitops.c:61-100 | Words of 16 bytes with shifts, masks and multiplications, and single bytes by table, count every set bit of a string at any address. |
| Bitops.RedisBitpos | redis-2.8/src/bitops.c:110-188 | The position is that of the first bit with the value, words being skipped or not; -1 only for a set bit that does not occur. |
| Bitops.Bitop | redis-2.8/src/bitops.c:339-424 | The result is as long as the longest operand, and each of its bits is the conjunction, disjunction or sum of the operands' bits, or the complement of the only one's, bits behind an end or of a missing key being clear, on the fast path and off it. |
| Rand.NextLimbs | redis-2.8/src/rand.c:80-93 | Three 16-bit limbs with their carries make one step of the 48-bit congruential generator. |
| Rand.Undone | redis-2.8/src/rand.c:80-93 | The step can be undone: no two states lead to one. |
| ConfigModel.UnprocessedLinesStay | redis-2.8/src/config.c:1252-1307 | Comments, and lines of options that are not rewritten, keep their place and trimmed text; lines that do not parse become comments. |
| ConfigPlaces.ReadIs | redis-2.8/src/config.c:1270-1307 | A line that is read is the old one without the white space at its ends; comments, empty lines and lines that do not parse belong to no option, and the last become comments. |
| ConfigModel.ProcessedLinesAreTheCalls | redis-2.8/src/config.c:1241-1358 | The lines left for an option that was rewritten, or marked as processed, are those of its calls in order, minus unforced calls made when no old line remained; its other old lines are blank. |
| ConfigFile.NewFileSets | redis-2.8/src/config.c:1720-1824 | The same read off the files alone: the lines of the new file that set an option are those of its calls when it was rewritten or marked, and those of the old file otherwise; an option that is only marked is set by none. |
| ConfigPlaces.OldLinesAreUsed | redis-2.8/src/config.c:1325-1358 | The old lines of a processed option keep their place: the r-th of them holds the r-th line of the option's calls, or is blank when there are not that many. |
| ConfigPlaces.NewLinesAreLast | redis-2.8/src/config.c:1325-1358 | Behind the old lines stand, in call order, the lines that found none to use, behind a comment that announces them unless the old file had it. |
| ConfigModel.KeptLines | redis-2.8/src/config.c:1590-1606 | Joining the lines loses and moves none with text, and leaves no two empty lines in a row. |
| Config.RewriteState.RemoveOrphaned | redis-2.8/src/config.c:1624-1649 | Walking the index in any order blanks exactly the old lines of processed options that were not used again. |
| Config.RewriteConfig | redis-2.8/src/config.c:1720-1824 | Reading, rewriting, removing and joining, with the map from options to line numbers updated in place, produce that file. |

## Left out

Whole parts of the program:

- Sets, sorted sets and hashes in the rewritten append only file (aof.c:731-897), which is modelled for strings and lists with expires.
- The cardinality estimate of hyperloglog.c, which is floating point, and the cached value but for its validity.
- Object encodings, reference counts, shared objects, copy on write and allocation; the memory of a string is a parameter (`size`), as is the hash of a key.
- Replication, scripting, keyspace events, slow log, monitors and Pub/Sub, also where networking.c and multi.c feed them.
- fsync, fstat and the background threads; how system calls come out is part of the events or a parameter.
- The branches of the source that are compiled for Windows.
- client_max_querybuf_len, and output buffer limits (networking.c, asynchronous closing).
- sdssplitargs, which splits inline requests and configuration lines, is a parameter; sds.c:578-593 (sdstrim) is modelled.
- dict.c: fingerprints of unsafe iterators, dictGetRandomKey and dictEmpty are left out.
- zrank, skip lists, zip lists and zip maps, RDB files, the event loop and sentinel.

Members whose contract promises less than the source, or on other terms:

- DictScan.ScanVisitsAllIffAligned: says nothing of scans that come back to the bucket of an unaligned call, which takes a later call with a smaller mask; completeness under alignment (DictScan.AlignedRunVisitsAll) has no such condition.
- Dict.Dict.Scan: chains are sequences held in an array of buckets, so that the callback cannot change them, and aliasing between entries is not modelled.
- Dict.Dict.Resize: for at most 2^30 entries, since with tables of more than 2^30 buckets rehashidx, an int, would overflow.
- Dict.Dict.Add: for at most 2^29 entries, which an expansion doubles, for the same reason.
- Dict.Dict.Replace: for at most 2^29 entries likewise.
- DictIterRun.SafeIteratorReturnsEachKeyOnce: for keys that stay while the iterator runs, and programs that do not delete the saved next entry, which DictIterRun.DeletingNextBreaks shows to be necessary; keys added on the way may or may not be returned.
- Lzf.Compress: with an input of one byte, the C code first reads the byte behind it to hash the two and does not use the hash; the model does not read it. It does not say how well it compresses; lzf.h:58 speaks of less than 104% of the input, while the bound proved counts one byte for every 32 begun, which is more for short inputs.
- HllHistory.Merge: objects that are missing or not valid strings are left to the caller.
- Aof.Server.FeedAppendOnlyFile: EXPIRE, SETEX and their kin are not translated to PEXPIREAT (aof.c:418-445), which needs the clock; a command is written as it was given.
- AofModel.LogIsData: nothing is promised about a torn file, of which AofTorn.RunLoads says when it loads, and nothing about what the disk has of the file after a power failure.
- AofRewrite.RewriteIsLawful: sets, sorted sets and hashes are left out, and expired keys are not skipped (aof.c:966-967); keys and values are strings and lists, with at most 2^63 - 1 bytes and items; expire times are not compared with a clock.
- RespStream.AnyChunks: commands are sent as multibulk requests and do not close the connection; inline requests are modelled by RespParser.InlineLine and only RespStream.InlineLeaves speaks of them.
- ReplyQueue.Client.SendReply: nodes are values in a sequence, and glueing an object into the last node does not model shared strings; the limit of 64 KB a turn is modelled, but not how often the event loop calls.
- MultiRun.ExecDecides: what a command does to keys is part of the event, and the replies are not modelled.
- Multi.Server.UnwatchAllKeys: the lists of keys and clients are sequences; Adlist.DeleteKey shows that the pointer list does the same.
- RespGrammar.RequestIff: of a parse from the start of a request; a request that arrives in pieces is the subject of RespStream.
- Intset.IntSet.Add: memory that realloc keeps behind the end is not modelled, so every change of size makes a new array.
- Pqsort.Sort: the comparison is a function and elements are values of any type, so that the choice of a swap by element size is not modelled.
- Migrate.BurstIsRefused: differences of more than eight consecutive bytes may go unnoticed, as with any checksum of 64 bits.
- ConfigFile.NewFileSets: for calls whose line is trimmed and sets the option it is made for.
