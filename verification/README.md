# A verified model of the GoBeansDB store

GoBeansDB keeps keys in buckets. A bucket appends records to data files, finds
them through a hash tree in memory, keeps an index of its writes from which the
tree can be rebuilt, and reclaims space by moving live records towards the
front of its files. Values are compressed with QuickLZ. This project models
that store in Dafny, down to the bytes of every format it writes, and proves
that its parts do what the store is built on.

`dafny verify dfyconfig.toml` checks the whole project.

## What is proved

**Compression.** For every non-empty source whose length fits the header, at both
levels, `Decompress` undoes `Compress` (`QuickLzDecompress.RoundTrip`). The proof
goes through an intermediate language of literals and references: the encoder's
tokens describe the source, the control words lay the tokens out in groups of 31,
and each of the match codes decodes unambiguously. At level 1 a reference is only a
hash; the decoder's hash table, which lags three bytes behind, is shown to hold at
that moment exactly the position the reference means. All array and sequence
accesses of both directions are in bounds, so the `len + 400` byte work buffer is
always large enough and the decoder's look-ahead never leaves the frame.

What is compressed is pinned down as well, by laws over the source alone
(`QuickLzGreedy`). At level 1 a place becomes a reference exactly if the last token start
with its hash has the same three bytes and is far enough back, or next to it in a run; at
level 3 it becomes the longest match among the remembered places with its hash, the
nearest of equals, unless that one is too far back. The frame is stored exactly if, at a
full control word past three quarters of the source, less than one part in 32 is saved.
These laws leave one token sequence and one frame for every source and level
(`QuickLzGreedy.OneFrame`), and `Compress` returns it. At level 3 the places of a hash are
counted in a byte: sixteen are remembered, but whenever the count has just wrapped all of
them are forgotten, and exactly when is stated (`QuickLzGreedy.RememberedExact`).

**Records and files.** Records with their CRC-32 (section 8 of RFC 1952) and padding
read back from any file that holds them, and whatever reads as a record is one. A record
with one damaged byte outside its two size fields is never read
(`Records.DamageDetected`), and the checksum, computed from a table over three pieces, is the
bit by bit CRC-32 of the whole (`Checksum.ThreePieces`). A
sequential reader of a written file gets back the records at their offsets; on a
damaged file of whole blocks it delivers only intact records and skips only
boundaries that have none.

**The append log.** Appends, rotations and the flusher are steps of a state machine,
with the file writer's own buffering as a separate step. In every interleaving the
position an append returned reads back its record, from the buffer or from disk,
even if the flusher works between the two lookups; the flusher's length check never
fails; and the buffer counter is exact. Files are filled in the order of the appends, each
left exactly when the next record does not fit (`DataFill.RunFills`), and a flush that is
over has put on disk everything its chunk had taken when it began
(`DataFlush.FlushReaches`).

**Garbage collection.** The collector runs beside clients: between any two of its
iterations any number of keys may be set, deleted or created. For every range, every
choice of destination, every rotation, every schedule of client writes, and every
point at which it is cancelled or fails to read, each tree entry leads, after every
iteration and every write, to an intact copy of the last record of its key in the old
log with the writes so far added to it, although the file being read may be the file
being written (`GcRun.Collector.CollectRecord`, `GcRun.Collector.Write`,
`GcRecovery.EntryLast`). The records left are a thinning of the old log in its old
order, followed by what was not read and by the writes; without writes they are a
function of the state before. They fill the chunks from the first destination on, each
left exactly when the next survivor does not fit. A restart then finds the live records of the old log
with the writes added to it, tombstones included.

Leaving the loop is where it can go wrong. The destination is closed on every way out,
and closing cuts a chunk that is being rewritten in place behind its survivors. If the
collector leaves while source and destination coincide, exactly the entries that lead
to unread records of that chunk are lost (`GcRun.Collector.Run`), and a restart finds
the same live records if and only if the unread records do not matter: of every key
whose last record is among them, the rest of the log has the same live record, or no
live record if it is a tombstone (`GcRecovery.RecoveryAfterCut`,
`GcRecovery.CollectThenRecover`). This takes a read error, or a cancel request that is
noticed before the first chunk when that chunk is its own destination; `CancelGC` in
store/hstore.go can set the flag while `BeforeBucket` is still at work.
On ranges the store accepts, `GcRecovery.CancelBeforeFirstChunk` loses a live key this
way, and `GcRecovery.CancelRevives` brings a deleted key back to life without losing an
entry.

The choice of the range is modelled too: an accepted range starts and ends at chunks
with records and has a chunk with records above it that is old enough, and its last
test, for an empty range, never fails (`GcRange.CheckRange`). A collection that leaves
between two chunks with its destination behind its source leaves tree and log in
agreement, every entry behind all other records of its key and no file outgrown, so that
any number of requests in a row, each beside client writes, keep all live records
(`GcAgain.StandsAgain`, `GcAgain.CollectAll`).

**The tree.** The packed leaves, which store only part of each hash and of each
position, behave as a map over full 64-bit hashes for every legal depth and height.
Leaf summaries kept incrementally modulo 2^16 and 2^32, and inner summaries that are
invalidated and recomputed lazily, always equal a recomputation from scratch wherever
they claim to be up to date. Summaries depend on live content alone; with at most 256
live keys below it a node's hash is the plain sum over them of value hash times digits 4
to 7 of the key's hash, whatever the height. A
directory listing returns exactly the stored entries with the prefix, each once, or
the sixteen up-to-date summaries below. A dumped tree loads as the same map.

**The index and restart.** A split in memory gives the last item of every key,
colliding hashes included; its file, sorted and stripped of overwritten items, finds
every key through the sparse table. A key the file does not hold is another matter:
the reader's own offset does not follow the seek, so beyond the last item it goes on
to read the table as items, by as many bytes as it had skipped (`HintFile.KeyBeyond`),
unless some item has a larger hash or the scan starts at the head of the file;
`HintFile.MissingKeyFails` is a file the writer produces on which this ends in an
error. Applying the files chunk by chunk to a loaded tree gives the entries that a
replay of the whole log gives, although some of them are applied twice. A bucket whose
index is dumped and read into a new tree has for every hash the live part of what its
own tree had, from the bytes of the files up (`BucketRestart.DumpAndReopen`), and so has
one that is closed and opened through a tree file and the index files after it
(`BucketRestart.CloseAndOpen`). A bucket opened from the bytes of its data files alone has
an entry for exactly the live keys of the data, and the entry reads the record
(`DataRestart.OpenFromData`). The k-way merge yields the newest
item of every key in strict order and reports to the collision table exactly the items
whose hash has another key.

**The bucket.** The log, tree, index and collision table are put together. `get`
returns the record last written for a key whatever other keys share its hash, and
finds nothing exactly if there was none. `checkAndSet` accepts, ignores or refuses a
write as a versioned map does with the version it knows of the key. That is the key's
own version if and only if the collision table has the key or the last write of its
hash happens to have the same version; a deletion is stored exactly if the key is live,
if and only if the table has the key or the last write of its hash and its own are both
live or both not (`Bucket.DeleteExact`; `Bucket.StrangerDeleted` is an instance where
neither holds). An accepted write gets the version the client names or one further from
zero than the old one, as a 32-bit number; versions rise as long as 32 bits leave room,
and exactly when they do is stated for all pairs of versions.

## Conventions

- Shifts, masks and disjoint `|` are division, remainder and addition; integer widths
  are explicit where values can wrap.
- A lock-protected section is one step. `getDiskFileSize` is one step.
- Tree height at least 2, depth plus height at most 8, `SplitCap` at least 1, at most
  998 chunks, `DataFileMax` plus the largest record below 2^32.
- Garbage collection: distinct keys have distinct hashes, the files are intact and
  flushed, chunks in range are no larger than `DataFileMax`, nothing is written
  inside one iteration of the loop. Client writes go to the end of the log, above the
  range; what is still buffered of them counts as part of their file. Over a series of
  collections every file has room for the writes that go to it, as the store's rotation
  sees to.
- Key hashes and value hashes are arbitrary functions.
- `sort.Sort`, `sort.Search` and `container/heap` are library code: a sort is an
  insertion sort, the search is written out, and the heap is replaced by a scan for
  the least element, with the reader array permuted as `Pop` and `Push` do.
- The memory a grown leaf gets is arbitrary (`junk` parameters).

## Model

| member | source | states |
|---|---|---|
| Bytes.ValLE | quicklz/quicklz.go:53-65 | n little-endian bytes keep every value below 256^n |
| Bytes.LEVal | quicklz/quicklz.go:53-65 | reading bytes as a number and writing them again is the identity |
| QuickLzWriter.FastRead | quicklz/quicklz.go:53-59 | the loop yields the little-endian value of the bytes read |
| QuickLzWriter.FastWrite | quicklz/quicklz.go:61-65 | the value's bytes replace that stretch of the array and nothing else changes |
| QuickLzFormat.LayoutSplit | quicklz/quicklz.go:117-130 | a token stream is laid out as its full groups followed by the rest |
| QuickLzFormat.FullGroupsSnoc | quicklz/quicklz.go:126-129 | closing a full group extends the laid-out groups by exactly that group |
| QuickLzFormat.HashBits | quicklz/quicklz.go:133-133 | bit k of a table slot is bit k of the window xor bit k + 12 |
| QuickLzGreedy.OneParse | quicklz/quicklz.go:117-288 | of two greedy parses of a source one is the beginning of the other |
| QuickLzGreedy.GaveUpBefore | quicklz/quicklz.go:118-124 | if a source is parsed to its end, a place where packing is given up lies on the way |
| QuickLzGreedy.OneFrame | quicklz/quicklz.go:80-289 | a source has one greedy frame at a level |
| QuickLzGreedy.RememberedExact | quicklz/quicklz.go:204-226 | sixteen places of a hash are remembered exactly if their count as a byte is sixteen or more; after 256 none is |
| QuickLzWriter.ShiftedFull | quicklz/quicklz.go:118-126 | bit 0 of the word under construction is set exactly when 31 tokens are in, and the word is then their flags |
| QuickLzWriter.ShiftedSnoc | quicklz/quicklz.go:141-187 | shifting in one flag represents the group with one more token |
| QuickLzWriter.Writer.NextWord | quicklz/quicklz.go:126-129 | patching the control word turns the open group into a finished one and keeps all tokens |
| QuickLzWriter.Writer.Put | quicklz/quicklz.go:141-191 | writing a code and a flag appends exactly one token to what the buffer represents |
| QuickLzCompress.Extend1 | quicklz/quicklz.go:142-166 | the length found is a repetition of the earlier bytes, bounded, and maximal |
| QuickLzCompress.RunShift | quicklz/quicklz.go:140-140 | inside a run a match one byte back is also one three bytes back |
| QuickLzCompress.Ref1Ok | quicklz/quicklz.go:132-181 | the position the lagging decoder will resolve repeats the bytes the encoder matched, including the run case |
| QuickLzCompress.Step1 | quicklz/quicklz.go:132-191 | one level-1 step adds the one token that comes next by the greedy law, keeps the tables right and stays within the buffer budget |
| QuickLzCompress.Extend3 | quicklz/quicklz.go:213-216 | the longest repetition up to the limit |
| QuickLzCompress.Search3 | quicklz/quicklz.go:209-222 | a true repetition, and no candidate in the slot is longer, or as long and nearer |
| QuickLzCompress.SlotHolds | quicklz/quicklz.go:204-226 | the entries the search looks at are exactly the last places with this hash that count as remembered |
| QuickLzCompress.Insert3 | quicklz/quicklz.go:225-239 | a place joins the ring of its hash and no other; the count wraps at 256 |
| QuickLzCompress.Look3 | quicklz/quicklz.go:194-222 | the best remembered match, or none, makes the token that comes next |
| QuickLzCompress.Matches1Is | quicklz/quicklz.go:140-140 | the level-1 test holds exactly if the last token start with this hash will do |
| QuickLzCompress.Step3 | quicklz/quicklz.go:193-263 | one level-3 step adds the one token that comes next by the greedy law, costs no more than the bytes passed, and remembers all of them |
| QuickLzCompress.NextGroup | quicklz/quicklz.go:118-130 | packing is given up exactly if the word is full, three quarters are read and too little is saved; else tokens and budget are kept |
| QuickLzCompress.Tail | quicklz/quicklz.go:267-288 | the literal tail completes a frame of the whole source within the buffer |
| QuickLzCompress.Finish | quicklz/quicklz.go:280-288 | aligning the last word and writing the header makes the buffer a frame |
| QuickLzCompress.Store | quicklz/quicklz.go:119-124 | the stored form is a frame of the source |
| QuickLzCompress.WriteHeader | quicklz/quicklz.go:67-78 | the nine header bytes carry level, kind and both lengths |
| QuickLzCompress.OneToken | quicklz/quicklz.go:117-265 | one pass of the main loop at either level gives up or takes the tokens further through the source, tables, budget and look-ahead kept |
| QuickLzCompress.Compress | quicklz/quicklz.go:80-289 | for every non-empty source the result is its one greedy frame: stored exactly if packing is given up somewhere, else the greedy tokens packed; an empty source gives nothing |
| QuickLzDecompress.Ref3Decodes | quicklz/quicklz.go:346-371 | the five level-3 codes decode to their length and offset, whatever bytes follow |
| QuickLzDecompress.Ref1Decodes | quicklz/quicklz.go:335-345 | the two level-1 codes decode to their length and hash |
| QuickLzDecompress.LastStartIsMax | quicklz/quicklz.go:335-337 | the position a reference means is the greatest token start in reach with its hash |
| QuickLzDecompress.Resolve | quicklz/quicklz.go:335-337 | the lagging hash table holds that position when the reference is read |
| QuickLzDecompress.RehashLit | quicklz/quicklz.go:403-410 | after a literal the table again covers all token starts at least three bytes back |
| QuickLzDecompress.RehashRef | quicklz/quicklz.go:382-395 | after a match the table covers its start and skips its inside, as the encoder did |
| QuickLzDecompress.CopyMatch | quicklz/quicklz.go:373-380 | the forward overlapping copy extends the correct output by the match |
| QuickLzDecompress.LookAhead | quicklz/quicklz.go:320-326 | reading three or four bytes ahead stays inside the frame while a match may come |
| QuickLzDecompress.ParseRef | quicklz/quicklz.go:333-371 | the reference read is the next token, and its source position repeats |
| QuickLzDecompress.TakeRef | quicklz/quicklz.go:329-395 | one reference extends the correct output and keeps reader and tables in step |
| QuickLzDecompress.TakeLit | quicklz/quicklz.go:397-414 | one literal extends the correct output and keeps reader and tables in step |
| QuickLzDecompress.TakeTail | quicklz/quicklz.go:416-427 | the last bytes complete the output, control words skipped without being read |
| QuickLzDecompress.Unpack | quicklz/quicklz.go:316-430 | a packed frame's tokens are unpacked to exactly the plaintext |
| QuickLzDecompress.SizeDecompressed | quicklz/quicklz.go:39-44 | of a frame: the true plaintext length |
| QuickLzDecompress.SizeCompressed | quicklz/quicklz.go:46-51 | of a frame: the true frame length |
| QuickLzDecompress.Decompress | quicklz/quicklz.go:291-431 | a frame of s gives s |
| QuickLzDecompress.RoundTrip | quicklz/quicklz.go:80-431 | compressing and decompressing any non-empty source at either level is the identity |
| Records.EncodeHeader | store/datafile.go:78-88 | the header ends up with the five fields and the checksum over all that follows it |
| Records.AppendTo | store/datafile.go:307-330 | a record is appended with its header and zero padding to 256 bytes |
| Records.HoldsRead | store/datafile.go:114-170 | a record written anywhere in a file reads back unchanged |
| Records.ReadHolds | store/datafile.go:114-170 | whatever reads as a record has its bytes, sizes and checksum in the file |
| Checksum.TableStep | store/crc32.go:65-66 | a table lookup on the lower byte, added to the upper bytes, is eight bits of the checksum |
| Checksum.Write | store/crc32.go:60-69 | the loop over a table gives the checksum bit by bit |
| Checksum.ThreePieces | store/datafile.go:66-76 | writing header, key and body one after the other gives the checksum of all |
| Checksum.OneByte | store/crc32.go:60-88 | sequences that differ in one byte have different checksums |
| Records.DamageDetected | store/datafile.go:141-168 | a record with one damaged byte, in its checksum or anywhere after it but in the size fields, is not read |
| Records.EncodeAllAligned | store/item.go:219-222 | files of whole records end on a block boundary |
| Records.EncodeAllAt | store/datafile.go:300-330 | each record of a file starts where the sizes before it end and is intact there |
| DataStream.NextAtSkips | store/datafile.go:202-226 | every boundary the resync skips has no intact record |
| DataStream.NextAtAligned | store/datafile.go:202-226 | the resync ends at a boundary with an intact record or at the end of the file |
| DataStream.StreamReader.NextValid | store/datafile.go:202-226 | the scan finds the first intact record, accounts for what it skipped, and terminates |
| DataStream.StreamReader.Next | store/datafile.go:228-277 | the next intact record; the offset advances by the skipped bytes plus its size; an error exactly for a plausible header that overruns the file; offset 0 is returned at the end and with an error |
| DataStream.Scan | store/datafile.go:196-277 | reading from any block boundary to the end delivers what the file holds from there on |
| DataStream.ScanWritten | store/datafile.go:228-277 | streaming a written file from any of its records on gives the records from there, at their offsets, without error |
| DataStore.StepKeeps | store/data.go:65-141 | every append, rotation, flush and file-writer step keeps buffer, file and log in agreement |
| DataStore.RunKeeps | store/data.go:65-141 | this holds in every state of every run |
| DataStore.LengthCheckHolds | store/data.go:129-133 | the fatal file length check never fires |
| DataStore.RunGrows | store/datachunk.go:45-120 | logs and files only grow |
| DataStore.GetRecordByOffsetInBuffer | store/datachunk.go:122-148 | the binary search finds the first buffered record at or after the offset |
| DataStore.BufferHit | store/datachunk.go:122-148 | a record still buffered is found there |
| DataStore.BufferMiss | store/datachunk.go:122-148 | a record that left the buffer is a miss, not an error |
| DataStore.ReadYourAppend | store/datachunk.go:150-169 | a position an append returned reads back its record at any later time, even with flusher steps between the two lookups |
| DataStore.CounterExact | store/data.go:85-137 | wbufSize is, modulo 2^32, what is buffered or dropped but not yet deducted |
| DataFill.AppendGoes | store/data.go:72-84 | an append goes to the end of the last chunk exactly if it fits there, else to the next, empty one |
| DataFill.RunFills | store/data.go:65-141 | in every run the chunks hold what they held and then all records appended, in order; each chunk was left because the next record did not fit, and only a record of its own exceeds a file |
| DataFlush.FlushReaches | store/data.go:99-141 | when a flush is over, the file has everything its chunk had taken when the flush began |
| Gc.EveryEntryReads | store/gc.go:248-363 | while records move, every entry reads an intact copy of the record of its key, with its version and value hash |
| Gc.MoveRecord | store/gc.go:314-347 | moving one record keeps files, pointers and order, also when source and destination coincide |
| Gc.PassRecord | store/gc.go:318-320 | skipping a record keeps them too |
| Gc.RotateFiles | store/gc.go:322-335 | closing a destination and opening the next keeps every file right |
| Gc.LeaveFiles | store/gc.go:355-357 | removing a chunk that was read to its end loses nothing |
| Gc.EndFiles | store/datachunk.go:201-214 | whenever the collector leaves, closing the destination makes all files whole: the log before the range, the survivors, and what was not read, less the source if it is the destination |
| Gc.AfterEnd | store/gc.go:243-246 | after that exactly the entries leading to unread records of a chunk rewritten in place are lost |
| Gc.AddFiles | store/datachunk.go:45-54 | a client's append above the range leaves the collector's files right |
| Gc.AddPointers | store/bucket.go:395-403 | a client's write repoints its key and no other |
| GcLog.AccountStep | store/gc.go:283-320 | one record more: what is kept stays a thinning of what was read, and of unwritten keys exactly what the state before says |
| GcLog.AccountWrite | store/bucket.go:395-403 | a client's write does not change what is kept of other keys, and its own key is above the range |
| Gc.Opening | store/gc.go:218-242 | the chosen destination satisfies what the loop relies on |
| GcRun.Collector.Rotate | store/gc.go:322-335 | the collector's state stays right and the destination advances by one, not past the source |
| GcRun.InvNext | store/gc.go:270-312 | the record at hand is intact, and whether it is kept is decided by the state before with the writes added |
| GcRun.Collector.Write | store/bucket.go:395-403 | a client sets, deletes or creates a key between two iterations: afterwards every entry reads the last record of its key |
| GcRun.Collector.Serve | store/hstore.go:315-315 | any number of such writes |
| GcRun.Collector.CollectRecord | store/gc.go:268-353 | after every iteration every entry reads the last record of its key, writes so far included, and every destination that was left had no room for the survivor that follows |
| GcRun.Collector.CollectChunk | store/gc.go:253-357 | a chunk is read to its end, or up to a read error, with client writes between its records |
| GcRun.Collector.Close | store/gc.go:243-246 | on every way out: whole files, the account of what is kept and how it is packed, and exactly which entries are lost |
| GcRun.Collector.Collect | store/gc.go:248-364 | for every cancellation point, read error and schedule of client writes; source and destination coincide only after a read error or at the first chunk |
| GcRun.Collector.ChooseDst | store/gc.go:218-234 | the destination is the nearest non-empty chunk below with room, else the one after it, never beyond the start |
| Gc.NearestIs | store/gc.go:218-234 | of the chunks below, the last that is not empty if it has room, else the one after it; the first source if all are empty |
| GcRun.Collector.Run | store/gc.go:188-366 | every entry reads back if and only if none leads to an unread record of a chunk rewritten in place at the moment of leaving |
| GcRecovery.ReplayIsLast | store/bucket.go:142-148 | a replay keeps exactly the keys whose last record is no tombstone |
| GcRecovery.EntryIsLast | store/gc.go:283-288 | the record of an entry is the last of its key |
| GcRecovery.EntryLast | store/gc.go:283-288 | what an entry stands for is the last record of its key in the whole log |
| GcRecovery.ReplayAlike | store/bucket.go:142-148 | two logs replay alike exactly if every key's live last record is the same |
| GcRecovery.EntrySurvives | store/gc.go:284-303 | of a key with an entry exactly the entry's record survives, once it was read |
| GcRecovery.TombstoneSurvives | store/gc.go:304-312 | without an entry: the last tombstone survives if older chunks stay, nothing does if none stay |
| GcRecovery.Fair | store/gc.go:284-312 | of a key that is not in the unread part or above, what was kept says the same as what was read, client writes notwithstanding |
| GcRecovery.RecoveryPreserved | store/gc.go:248-363 | with the destination behind the source at the moment of leaving, the log left replays to the live records of the old log with the writes |
| GcRecovery.RecoveryAfterCut | store/datachunk.go:201-214 | with the source cut off it does if and only if no key's live state depends on the records lost |
| GcRecovery.AddMatches | store/bucket.go:395-403 | a client's write keeps tree and log in agreement and extends the log by its record |
| GcRecovery.CollectThenRecover | store/gc.go:188-366 | running the collector beside client writes and replaying the files it leaves gives the live records of the old log with the writes: always unless the source was cut off, and then if and only if that does no harm |
| GcRecovery.CancelBeforeFirstChunk | store/gc.go:236-252 | in a range that is accepted an early cancel destroys the first chunk, and with it a live record |
| GcRecovery.CancelRevives | store/gc.go:236-252 | in a range that is accepted an early cancel destroys a tombstone and brings its key back, though no entry is lost |
| GcRange.CheckStart | store/gc.go:157-174 | refused exactly if beyond the head; else the first chunk from there on that is not empty |
| GcRange.CheckEnd | store/gc.go:126-155 | the highest chunk on disk that is not young decides: unreadable is an error, old gives the last non-empty chunk below it; none such exactly if all are young |
| GcRange.CheckRange | store/gc.go:176-187 | accepted exactly if an old chunk decides among those asked for; then first and last chunk are not empty and within the request, the one that decides lies above, and the test for an empty range never fails |
| GcRange.ChosenOnce | store/gc.go:126-187 | a request gets one range at most |
| GcRange.AcceptedIsCollectable | store/gc.go:126-187 | an accepted range has records in its first and last chunk and above it |
| GcLatest.SettledMove | store/gc.go:322-347 | a moved record lies behind all other records of its key, and the file it moved to stays within the limit |
| GcLatest.SettledPass | store/gc.go:318-320 | passing a record keeps every entry that was read behind all records of its key |
| GcLatest.SettledLeave | store/gc.go:355-357 | so does leaving a chunk |
| GcLatest.SettledWrite | store/bucket.go:395-403 | so does a client's write |
| GcLatest.PackedMove | store/gc.go:322-339 | a survivor that fits leaves the destinations before it as full as they were |
| GcLatest.PackedRotate | store/gc.go:322-335 | a survivor that does not fit opens the next chunk, and the one left had no room for it |
| GcAgain.PlaceAgain | store/gc.go:248-364 | after a collection no record lies behind its key's entry |
| GcAgain.UnknownAgain | store/gc.go:304-312 | after a collection a key without an entry still has no record or ends in a tombstone |
| GcAgain.NoneNew | store/gc.go:248-364 | a collection makes up no records |
| GcAgain.StandsAgain | store/gc.go:188-366 | leaving between two chunks, destination behind source, gives a state in which another collection can start |
| GcAgain.CollectOne | store/hstore.go:307-315 | a request that is refused changes nothing; one that is granted a range has that range collected, the live records kept, and exactly when not is stated |
| GcAgain.CollectAll | store/hstore.go:307-315 | any requests in a row, each answered as its state demands, keep all live records; if the last one cut its source off, if and only if that does no harm |
| Nibbles.ParsePathUint64 | store/key.go:83-90 | the sixteen digits of a hash, most significant first |
| Nibbles.SetKeyHashByPath | store/key.go:115-123 | the digits at the top of a hash, zeros below |
| Nibbles.BucketOf | store/key.go:136-140 | the bucket is the number its digits spell |
| Nibbles.InitTree | store/config.go:82-96 | depth, stored hash length and mask of a configuration; stored bytes and place cover the hash |
| Nibbles.PrefixIsTop | store/key.go:83-123 | starting with given digits is having their number on top |
| Leaf.ItemRoundTrip | store/leaf.go:53-71 | an item with a 256-aligned position survives its eleven bytes |
| Leaf.FindInBytes | store/leaf.go:81-102 | both searches find the first cell with the stored hash bytes, or a negative index |
| Leaf.WriteCell | store/leaf.go:134-135 | the eight-byte hash write is repaired by the item write that follows |
| Leaf.Set | store/leaf.go:120-137 | the bytes become those of the updated cells; the old item is returned |
| Leaf.Get | store/leaf.go:155-164 | the item of the matching cell, if there is one |
| Leaf.Remove | store/leaf.go:139-153 | the bytes become those without the cell, exactly if the request applies |
| Leaf.LowIdentifies | store/leaf.go:81-102 | two hashes of one leaf with equal stored bytes are equal |
| Leaf.NodeKhash | store/leaf.go:45-51 | the digits of a path as a 32-bit number |
| Leaf.Rebuild | store/leaf.go:166-184 | stored bytes and place give back the full hash |
| Leaf.Iter | store/leaf.go:166-184 | visits every cell once, in order, with its full hash |
| Leaf.MatchIsMap | store/leaf.go:81-102 | the byte search finds a cell exactly if the map over full hashes has the key, with its item |
| Leaf.SetIsMap | store/leaf.go:120-137 | set on the bytes is a map update, and the cells stay distinct and well placed |
| Leaf.RemoveIsMap | store/leaf.go:139-153 | remove on the bytes removes the key exactly if the request applies |
| TreeSpec.IdxIsPath | store/htree.go:236-246 | a hash has a node's path exactly if the way down leads through the node |
| TreeSpec.SetSummary | store/htree.go:211-225 | the wrapping updates equal the exact sums, reduced |
| TreeSpec.SetNode | store/htree.go:211-225 | the incremental summary equals the one of the new cells from scratch |
| TreeSpec.RemoveSummary | store/htree.go:227-234 | the same for a removal's arithmetic |
| TreeSpec.RemoveNode | store/htree.go:227-234 | the incremental summary equals the one of the remaining cells from scratch |
| TreeSpec.InvalidateKeeps | store/htree.go:248-262 | with the way to a leaf out of date, every node that claims to be right is right, and its children claim it too |
| TreeSpec.StoreKeeps | store/htree.go:338-359 | storing a node combined from up-to-date children keeps this |
| HTree.Tree.constructor | store/htree.go:79-99 | a new tree is well formed and holds nothing |
| HTree.Tree.GetLeaf | store/htree.go:236-246 | the leaf a hash leads to |
| HTree.Tree.GetLeafAndInvalidNodes | store/htree.go:248-262 | exactly the inner nodes above the leaf are out of date afterwards |
| HTree.Tree.Set | store/htree.go:296-302 | the tree maps the hash to the item, all other hashes as before, all invariants kept |
| HTree.Tree.Remove | store/htree.go:305-311 | the hash is forgotten exactly if the request applies, all else as before |
| HTree.Tree.Get | store/htree.go:322-330 | what the tree maps the hash to |
| HTree.MixHashes | store/htree.go:350-356 | the children's hashes combined as from scratch |
| HTree.Tree.UpdateNodes | store/htree.go:338-359 | the node and all below it are up to date; nothing that was up to date changes |
| HTree.SubtreeFresh | store/htree.go:338-359 | below an up-to-date node every count and hash equals its recomputation |
| HTree.Tree.CollectItems | store/htree.go:361-384 | the cells below a node that have the prefix, in order |
| HTree.Tree.GetNode | store/htree.go:264-285 | the deepest node on the way along a path |
| HTree.Tree.ListDir | store/htree.go:386-410 | all entries with the prefix, each once, or sixteen up-to-date child summaries; which one depends on depth and live count |
| HTree.ItemsExact | store/htree.go:361-384 | filtering below one node misses no entry of the whole tree |
| HTree.SameContentSameNodes | store/htree.go:211-234 | two trees with the same live keys and value hashes agree on every up-to-date node |
| TreeListing.MaskTests | store/htree.go:397-400 | the mask comparison tests the prefix |
| TreeListing.SubIn | store/htree.go:361-384 | a cell is below a node exactly if its hash leads there |
| TreeListing.CountIsLive | store/htree.go:338-359 | a node's count is the number of live keys below it, as a 32-bit number |
| TreeListing.WeightDigits | store/htree.go:211-225 | the weight of a key is the number that digits 4 to 7 of its hash spell |
| TreeListing.SmallIsPlain | store/htree.go:338-359 | with at most 256 live keys below, the hash is the sum over them of value hash times those digits, at any height |
| TreeListing.SameLiveSameSums | store/htree.go:211-234 | leaf summaries depend on live keys and value hashes only, not on order or dead entries |
| TreeListing.ContentDecides | store/htree.go:338-359 | the same for every recomputed node |
| TreeDump.Dump | store/htree.go:146-203 | the file holds all leaf summaries and then all leaves with their lengths |
| TreeDump.Parse | store/htree.go:107-140 | reading a dumped file gives back summaries and leaves |
| TreeDump.Reload | store/htree.go:107-203 | a new tree loaded from a dump is well formed and answers every hash as the old one |
| HintItems.LessTotal | store/hint.go:341-352 | items are totally ordered by hash and key |
| HintItems.LessTrans | store/hint.go:341-352 | the order is transitive |
| HintItems.KeyLessIs | store/hint.go:341-352 | keys are ordered by the first byte that differs, a prefix before its extension |
| HintBuffer.Located | store/hint.go:163-179 | index and collision tables lead to the one place that holds a key, or to none if none does |
| HintBuffer.HintBuffer.Place | store/hint.go:126-140 | where an item belongs, with a table opened on the first collision |
| HintBuffer.HintBuffer.Set | store/hint.go:121-161 | the item is taken unless its key is new and the buffer full; the covered size follows |
| HintBuffer.HintBuffer.Get | store/hint.go:163-179 | the last item written for the key, colliding keys included; a collision is reported exactly if the last item under the hash has another key |
| HintChunk.HintChunk.Rotate | store/hint.go:230-239 | a new empty split, nothing else changed |
| HintChunk.HintChunk.SetItem | store/hint.go:241-252 | the item is appended to what the chunk was given, in a new split exactly if its key is new and the last is full; the split accounts for the data up to the record's end |
| HintChunk.HintChunk.GetMemOnly | store/hint.go:254-268 | the last item written for the key in any split |
| HintChunk.SortForDump | store/hint.go:181-187 | strictly sorted, exactly the last items of the run |
| HintDump.Dump | store/hint.go:181-208 | the file written is well formed and holds exactly the last items of the run, sorted |
| HintDump.Find | store/hintindex.go:28-69 | a key written to the buffer is found in its file with its last item |
| HintDump.GetInChunk | store/hint.go:270-296 | over dumped splits and splits in memory, the last item written for the key, if every file can tell whether it has the key |
| HintMgr.HintMgr.SetItem | store/hint.go:521-543 | one chunk's history grows by the item, the others stay; whether it rotated, and how much data it accounts for |
| HintMgr.HintMgr.GetItem | store/hint.go:570-596 | the last item of the newest chunk that knows the key |
| HintFile.ReadWritten | store/hintfile.go:89-124 | an item written anywhere in a file reads back unchanged |
| HintFile.IndexBuffer.Append | store/hintindex.go:140-150 | one more entry, across row boundaries |
| HintFile.IndexBuffer.ToIndex | store/hintindex.go:128-138 | the rows flatten to what was appended |
| HintFile.FileWriter.WriteItem | store/hintfile.go:163-180 | the item section grows by the item, every table entry points at an item, and an entry is added exactly if the interval is exceeded |
| HintFile.FileWriter.Close | store/hintfile.go:182-212 | a complete file: header, items, table |
| HintFile.MetaRoundTrip | store/hintfile.go:23-33 | the header reads back |
| HintFile.LoadHintIndex | store/hintindex.go:71-119 | header and table read back as written |
| HintFile.Search | store/hintindex.go:33-33 | the entry before the result has a smaller hash, the result none smaller |
| HintFile.ScanStops | store/hintindex.go:46-67 | a scan from at or before the key, or from before a larger hash, ends with the right answer although the reader's own count lags |
| HintFile.ScanRunsOut | store/hintindex.go:46-67 | a scan from the head ends at the last item |
| HintFile.KeyBeyond | store/hintindex.go:46-67 | a missing key beyond all items is answered by reading the table as items, for as many bytes as the scan skipped |
| HintFile.Get | store/hintindex.go:28-69 | every key in the file is found; a missing key is reported missing if some item has a larger hash or the scan starts at the head, and else the answer is that of reading the table as items |
| HintFile.WriteTwo | store/hintfile.go:163-212 | the writer produces the two-item file with both items in its table |
| HintFile.MissingKeyFails | store/hintindex.go:34-45 | on that file looking for a missing key ends in a read error |
| Collision.CollisionTable.Get | store/collision.go:23-33 | the item filed for the key, and whether the hash is known |
| Collision.LogOrder | store/item.go:196-198 | positions are compared by chunk, then by offset |
| Collision.CollisionTable.CompareAndSet | store/collision.go:36-52 | the later position wins for this key, a collection's always; no other key changes |
| HintMerge.LeqTrans | store/hintmerge.go:71-82 | the heap's order is transitive |
| HintMerge.DedupNewest | store/hintmerge.go:30-52 | of an ordered stream, one item per key, the newest, strictly sorted |
| HintMerge.MergeWriter.Write | store/hintmerge.go:30-52 | written and pending items are the newest of all items so far, the pending ones sharing one hash |
| HintMerge.MergeWriter.Flush | store/hintmerge.go:54-65 | pending items are written out, and reported exactly if several keys share the hash |
| HintMerge.HandOut | store/hintmerge.go:120-135 | taking the least item keeps the stream ordered and accounts for every input |
| HintMerge.Requeue | store/hintmerge.go:84-94 | taking a reader out and putting it back keeps the array a permutation |
| HintMerge.Merge | store/hintmerge.go:96-159 | strictly sorted, exactly the newest item of each key; reported exactly the items whose hash has another key; each reader closed once |
| Restart.DumpReplays | store/bucket.go:119-151 | a dumped split replays like the writes it was made from |
| Restart.UpdateHtreeFromHint | store/bucket.go:119-151 | the bytes of one file, read and applied to the real tree, are the replay of its items, for every hash |
| Restart.ApplyHints | store/bucket.go:206-230 | the loop of open is a replay of the files from the first chunk not passed over |
| Restart.RestartIsReplay | store/bucket.go:206-230 | applying files a loaded tree may already reflect gives the live entries of a replay of the whole log |
| Restart.Reopen | store/bucket.go:166-230 | the reopened tree's live entries are those of the whole log |
| DataRestart.LastItem | store/bucket.go:89-117 | of an index rebuilt from a data file, the last item of a hash has the version and place of the last record |
| DataRestart.Rebuilt | store/bucket.go:89-117 | a replay of the indexes rebuilt from all data files has an entry for exactly the live keys of the data, and it reads the record |
| DataRestart.BuildHint | store/bucket.go:89-117 | from the bytes of a data file, from any record on, exactly the items of its records enter the chunk's index, split by split |
| DataRestart.OpenFromData | store/bucket.go:206-230 | from the bytes of the data files alone: the opened tree has a live entry for exactly the live keys of the data, and it reads the record |
| BucketRestart.IndexReplays | store/bucket.go:206-230 | replaying the index of a history gives the live part of the tree's entries |
| BucketRestart.DumpChunk | store/hint.go:371-412 | every split that holds anything becomes a file of its last items |
| BucketRestart.DumpAndReopen | store/bucket.go:166-290 | a valid bucket, dumped and opened again, has for every hash the live part of what its tree had |
| BucketRestart.LastDumped | store/hint.go:354-369 | the last chunk and split that has an index file |
| BucketRestart.CloseAndOpen | store/bucket.go:183-293 | a valid bucket, closed with its tree dumped and opened from the tree and the index files from its position on, has for every hash the live part of what its tree had |
| Writes.HashLastIsKeyLast | store/bucket.go:395-403 | the last write of a hash is the last write of its own key |
| Writes.ReadNow | store/data.go:143-145 | a write's position reads back its record from buffer or file |
| Writes.Appended | store/data.go:72-84 | an append goes to an aligned place after all earlier ones: the end of the last chunk if it fits, else the start of the next |
| Writes.StillInLog | store/data.go:65-141 | no step moves or removes a record |
| Writes.IndexLast | store/hint.go:510-596 | the newest chunk that knows a key is that of its last write, and knows that write |
| Bucket.VersionAdvances | store/bucket.go:325-340 | an accepted write gets the positive version it names, or one further from zero than the old one with the sign of the request, as a 32-bit number; it advances if and only if the old one leaves room |
| Bucket.VersionRefused | store/bucket.go:325-340 | exactly the positive versions that do not exceed the old magnitude are refused, except that the old version -2^31 refuses nothing |
| Bucket.DeletionAccepted | store/bucket.go:331-333 | a deletion is never refused and gets a negative version if and only if the old one leaves room |
| Bucket.DeleteIfLive | store/bucket.go:386-388 | where its own version is known, a deletion is stored exactly if the key is live, if and only if the version leaves room |
| Bucket.StoredRises | store/bucket.go:382-391 | version magnitudes rise strictly with every stored write of a key |
| Bucket.Bucket.constructor | store/bucket.go:166-175 | an empty bucket is consistent |
| Bucket.Bucket.Flush | store/data.go:99-141 | any flusher step keeps the bucket consistent and its history |
| Bucket.AloneIsKnown | store/bucket.go:405-430 | a key that has its hash to itself is known by its own version |
| Bucket.DeleteExact | store/bucket.go:386-388 | whatever keys share the hash: a deletion is stored exactly if the key is live, if and only if the table has the key or the last write of the hash is as live as its own; a known version without room is always stored over |
| Bucket.StrangerDeleted | store/bucket.go:426-430 | an instance where neither holds: deleting a key that was never written is stored because another key is live |
| Bucket.Bucket.GetMeta | store/bucket.go:405-430 | the version of the key's last write if the table has it, else of the last write of its hash; exactly when that is the key's own |
| Bucket.Bucket.TellTable | store/hint.go:510-518 | a write reaches the collision table exactly if it knows the hash |
| Bucket.Bucket.Set | store/bucket.go:395-403 | log, tree, index and table all agree with the history extended by this record and value hash |
| Bucket.Bucket.Get | store/bucket.go:405-499 | the record last written for the key, none if there was none, never an error, whatever keys share the hash; afterwards the version known of a key that was found is its own |
| Bucket.Bucket.GetByIndex | store/bucket.go:472-499 | the same for a key whose hash leads to another key's record; the table learns both places |
| Bucket.Bucket.CheckAndSet | store/bucket.go:342-393 | stored with its value hash, ignored or refused as the version rules say of the version known for the key; exactly when that is the key's own |

## Left out

- Bucket.Bucket.Get: one call is one step; the warning path for positions that became stale during a collection is not modelled.
- Collision.CollisionTable.Get: dumping the table to YAML and loading it is not modelled.
- Gc.MoveRecord: chunks are values in the collector; the locks around its appends and the in-memory buffers are not modelled.
- GcRun.Collector.CollectRecord: what a collection does to the index and to keys with colliding hashes is not modelled.
- GcRun.Collector.CollectChunk: damaged files, failures to open the next destination and fatal write errors are not modelled.
- GcRun.Collector.Collect: a failure to open the first destination, before anything is moved, is not modelled.
- GcRun.Collector.Close: the dump of the destination's index is not modelled.
- GcRun.Collector.Run: what is merged and dumped before a collection, its history and its statistics are not modelled.
- GcAgain.CollectAll: no collection follows one that failed to read in the middle of a chunk. The records it moved from that chunk stay in the chunk as well, behind their entries, so no entry need lie behind all records of its key until a restart; that the live records are kept holds there too. Requests that overlap on one bucket are refused by the store and not modelled.
- GcRange.CheckEnd: the time of a first record and whether it can be read are given, not read from the file.
- HintChunk.HintChunk.GetMemOnly: all splits are in memory here; `HintDump.GetInChunk` is the lookup that goes on to dumped splits.
- HintMgr.HintMgr.GetItem: the merged file and dumped splits are not consulted.
- HintMgr.HintMgr.SetItem: the dump that a rotation may trigger is not modelled.
- HintFile.Get: for a missing key beyond all items the answer is stated as the scan of the table's bytes; on which tables that scan fails is not.
- HintMerge.Merge: an abort by a collection, a read error and an empty input file are not modelled; readers are item sequences.
- QuickLzDecompress.Decompress: frames that no compressor produced; the source does no bounds checking on them.
- TreeDump.Parse: only files that some tree dumped; a file that ends early is an error in the source.
- Restart.ApplyHints: read errors and the bookkeeping of which files were dumped are not modelled.
- Restart.Reopen: choosing among several tree files and removing damaged index files are not modelled. `DataRestart.BuildHint` rebuilds an index from the middle of a data file, but no result puts its files behind older ones.
- BucketRestart.DumpChunk: the silence timer and the rotation before a dump are not modelled; all splits are dumped.
- Bucket.Bucket.CheckAndSet: models the default `CheckVHash: false`; switched on, a write whose value hash is that of the live record appends nothing and changes at most the version in the tree.
- Bucket.Bucket.GetByIndex: the source also writes the chunk number into the index item it found, inside the buffer; the model changes a copy.
- `incr`, which bypasses the version check.
- `TryCompress`, which decides what to compress; the C version of QuickLZ.
- Allocation of leaf memory and the resource counters.
- The memcache protocol, routing, configuration files, web pages and logging.
- The functions that hash keys and values; that the 256 constants of the checksum table are those the polynomial generates.
- `WriteRecord.decode`, which only calls itself.
