# Verified models of the learning repository

Each module here models one self-contained part of the repository and proves what that part is for.
`dafny verify dfyconfig.toml` checks the whole project.

## What is modelled

**Addresses as text** (`Numerals`, `InetText`, `InetGrammar`, `InetGrammar6`, `InetRoundTrip`, `InetLanguage`, `InetParse`,
`InetPrint`, `InetShape`).
`Pton6` and `Ntop6` are the meaning of the parser and the printer; the methods of `InetParse` and `InetPrint` do
what the C code does, over byte and character buffers, with the in-place shift that opens the gap of a `::` and
the search for the longest run of zero groups, and are proved equal to them. Printing and parsing give back every
one of the 2^128 addresses. The parser's language is stated exactly: a text is accepted if and only if it is spelt
as some form whose groups and tail fill the address. That language is wider than section 2.2 of RFC 1884 (now
section 2.2 of RFC 4291): groups and octets may have any number of leading zeros, and a text may end in a colon, be it
eight groups (`1:1:1:1:1:1:1:1:`) or a gap and some groups (`::1:`); `InetLanguage` has an address for each. The source's
own comment says that `::` in a full address is silently ignored; the code does something else: the shift moves each
byte onto itself and then clears it, so every byte after the gap becomes zero. The comment is right exactly when those
bytes are zero (`GapIgnoredExactly`); `1:1:1:1:1:1:1::1` loses its last group. The check in `inet_ntop4` compares the
size with the length without the NUL, so when the two are equal the NUL is written one past the size given; otherwise
nothing past it changes (`StaysInsideExactly`). `InetShape` tells from the bytes of an address which texts have a `::` and
which end in a dotted quad.

**The packet pipeline** (`RwRing`, `WorkRings`, the `Pipeline*` modules, `FileNames`, `FileStore`, `FileClash`, `FileSearch`,
`SearchReader`, `PcapWriter`, `EndToEnd`).
`RwRing` is the ring buffer as a class, with wrapping 32-bit indices and a power-of-two mask; it refines a bounded
queue however often the indices wrap around. `WorkRings` is the round-robin scan over four such rings. `POWEROF2(0)`
holds in the source, so a ring of size 0 can be created, and it is modelled. The receiver, the four parquet writers
and the four file writers form a state machine with one action for each thing a thread does between two shared-memory
operations; the timers may ask for a flush in any state. The invariant of `PipelineInv` is kept by every action, so
its consequences hold in every reachable state: one owner for each group and bucket, no row lost or doubled, chunks
that tile their file, buckets that outlive their chunks, a scan that always finds a ring with room, and no wait that
is not for a thread that can go on. From every reachable state all that was accepted can be brought into finished
files (`PipelineDrains`). Each lane keeps its packets in the order of their arrival (`PipelineOrder`), and the
interval of a finished file is exactly that of its packets (`PipelineTimes`). A finished file is marked intact exactly
when it was opened and holds all that was encoded (`PipelineIntact`). `PipelineReasons` says why a group is handed
over and why a file is closed: it is full, or a timer has asked for it; and what was asked for is not forgotten
(`PipelineRequests`). Some fields are a record only and no action looks at them: the rows accepted so far, what was
encoded into which file, the chunks of a file, and how full the rings were when a scan began. `FileSearch` joins the
stored files to the search: their names read back as the interval of their rows, and skipping files by name finds what
a full scan finds. That fails when a time bound is absent, because the row filter treats zero as "any" and the file
filter does not; `SkipIsSafeExactly` gives the exact condition. `SearchReader` is the scanner and the reader with its
size limit, in any interleaving; the packet that exceeds the limit is counted but not taken. `SessionExactly` states
which packets are of the session asked for. Once both ports are given, a single address makes no difference: the code
compares the ports and returns. `PcapWriter` writes what was found in the order of time. A file's name is its interval
and the number of its writer. It is opened under the interval of its first chunk and renamed at the end. Opening
replaces a file of that name, and renaming is refused when the name is taken, so two files of one writer with one
interval do not both get their name: `FileStore` says exactly when all do, at every moment and whether or not the
writer has a file open. `NamesCanClash` is a run in which one does not, and in `OpeningCanReplace` it is gone before
the second is finished. `EndToEnd` joins both ends: when no intervals clash, a search finds the rows on file that
match, and once all is stored, the packets accepted that match.

**Enumeration, order and selection** (`UniquePermutations`, `NextPermutation`, `Partitioning`, `QuickSort`, `Select`).
In place, on arrays. `QuickSort` shows why the sort ends although its left call includes the pivot: if nothing is split
off, the last element is now the strict maximum of the same range, and then the median of three is not it.

**Lists and trees of nodes** (`RandomList`, `CycleList`, `TreeShapes`, `Cartesian`, `CartesianHeap`). The methods rewrite
the pointers of heap nodes as the source does. A tree on the heap is described by the tree of its nodes; a loop that
walks down a spine is described by a tree with a hole. The three builders give the same tree for every sequence, with
duplicates too: of equal maxima the first is the root. `mergeCartesianTree` answers null as soon as one tree is null,
so it merges correctly exactly when both trees are there or neither is; its only caller in the source never passes null.

**Traversals, search trees, quad trees** (`BinaryTree`, `Traversals`, `UniqueBsts`, `QuadTree`). The loops with an
explicit stack list what the recursive traversals list. A tree is rebuilt from its two traversals exactly when the
value of no node occurs to the left below it, so in particular when there are no duplicates. `generateTrees` and the
two counters agree from 1 on; for 0 the generator lists nothing, although the empty tree exists, and for a negative
argument `numTrees` returns the argument.

**Event loops and line input** (`StrCli`, `StrCliRound`, `WebFetcher`, `WebRound`, `ReadLine`). What the system does in a round is a value that the
theorems quantify over, so they hold for every schedule, every way `read` cuts the stream and every partial write. `StrCliRound` and `WebRound` state
what one round does in terms of the state before it and of what the system answered.
`readline` counts one byte too many when its buffer fills up before a newline; `CountsExactly` says when. The client
leaves its loop at the server's end of file even if bytes still wait for stdout; `DeliveredExactly` says when none do.

**The Internet checksum** (`Checksum`), sections 1 and 2 of RFC 1071, on machines of either byte order. For any buffer
whose length is an `int` the routine is right exactly when the 32-bit accumulator does not wrap around, which it cannot
for 65537 words and can for one more.

Descriptors, clocks, random numbers, encoded bytes and the results of system calls are parameters. Numbers that the
source keeps in fixed-width unsigned integers are wrapped where that matters (ring indices, the checksum accumulator).

## Model

| member | source | states |
|---|---|---|
| Numerals.DigitsAreTables | unp/unpv13e/libfree/inet_pton.c:145-166 | the parser knows the characters of its two tables of digits, and each means its place in the table |
| Numerals.PrintsLowerCase | unp/unpv13e/libfree/inet_ntop.c:181 | a printed digit is that of the lower-case table |
| Numerals.NumeralIsUnique | unp/unpv13e/libfree/inet_ntop.c:181 | a number has one numeral without leading zeros whose digits, read in their base, denote it, and that is printed |
| InetGrammar.Pton4Exact | unp/unpv13e/libfree/inet_pton.c:86-125 | the IPv4 parser accepts exactly four dotted decimal numbers up to 255 and reads their values |
| InetGrammar.RoundTrip4 | unp/unpv13e/libfree/inet_ntop.c:85-101 | parsing a printed IPv4 address gives it back |
| InetGrammar6.Pton6Exact | unp/unpv13e/libfree/inet_pton.c:140-224 | a text is read as an address if and only if some form of the grammar spells the text and denotes the address |
| InetRoundTrip.CompressedIsRead | unp/unpv13e/libfree/inet_pton.c:205-218 | whichever run of zero groups is compressed, embedded IPv4 or not, the parser restores the address |
| InetRoundTrip.RoundTrip6 | unp/unpv13e/libfree/inet_ntop.c:109-198 | parsing a printed IPv6 address gives the same sixteen bytes, for every address |
| InetRoundTrip.TextsAreDistinct | unp/unpv13e/libfree/inet_ntop.c:109-198 | different addresses have different texts |
| InetRoundTrip.GapInFullAddressClears | unp/unpv13e/libfree/inet_pton.c:132-218 | a `::` in a text with all sixteen bytes clears every byte after it, unlike the comment says |
| InetLanguage.GapIgnoredExactly | unp/unpv13e/libfree/inet_pton.c:132-218 | the `::` in a full address is ignored, as the comment says, exactly when all bytes after it are zero |
| InetLanguage.GapCanLoseBytes | unp/unpv13e/libfree/inet_pton.c:205-218 | an address text with eight groups and a `::` whose last group is lost |
| InetLanguage.FullTextMayEndInColon | unp/unpv13e/libfree/inet_pton.c:175-190 | eight groups and a colon are accepted |
| InetLanguage.TextWithGapMayEndInColon | unp/unpv13e/libfree/inet_pton.c:175-190 | so are a `::`, a group and a colon |
| InetLanguage.GroupMayHaveLeadingZeros | unp/unpv13e/libfree/inet_pton.c:165-174 | a group may have five digits |
| InetLanguage.UpperCaseIsRead | unp/unpv13e/libfree/inet_pton.c:162-174 | `2001:DB8::1` is read as its sixteen bytes |
| InetParse.InetPton4 | unp/unpv13e/libfree/inet_pton.c:86-125 | the loop computes the IPv4 parse and leaves the destination alone unless it succeeds |
| InetParse.OpenGap | unp/unpv13e/libfree/inet_pton.c:205-218 | the overlapping shift puts zeros between the bytes before and after the gap |
| InetParse.FinishParse | unp/unpv13e/libfree/inet_pton.c:199-223 | the last group is flushed, the gap opened, and anything but sixteen bytes refused |
| InetParse.InetPton6 | unp/unpv13e/libfree/inet_pton.c:140-224 | the loop computes the IPv6 parse and leaves the destination alone unless it succeeds |
| InetPrint.TextLength | unp/unpv13e/libfree/inet_ntop.c:122 | no address takes more than 39 characters, so the 46-byte buffer suffices |
| InetPrint.TextHasNoNul | unp/unpv13e/libfree/inet_ntop.c:187-196 | the text holds only hexadecimal digits, colons and dots, so `strcpy` copies all of it |
| InetShape.GapExactly | unp/unpv13e/libfree/inet_ntop.c:137-168 | the text of an address has a `::` exactly when two neighbouring groups are zero |
| InetShape.QuadEndsExactly | unp/unpv13e/libfree/inet_ntop.c:173-180 | it has a dot exactly when the first ten bytes are zero and the next two are 0xff, or are zero too with one of the two after them not zero; then it is `::ffff:` or `::` and the dotted quad of the last four bytes |
| InetShape.QuadInOrder | unp/unpv13e/libfree/inet_ntop.c:85-101 | the octets are printed in their order |
| InetPrint.BestIsLeftmostLongest | unp/unpv13e/libfree/inet_ntop.c:137-154 | the run the search ends with is the leftmost of the longest runs of zero groups |
| InetPrint.LongestZeroRun | unp/unpv13e/libfree/inet_ntop.c:135-156 | the search loop finds the leftmost longest run, or none if it is shorter than two |
| InetPrint.FormattedText | unp/unpv13e/libfree/inet_ntop.c:161-186 | with the run chosen, what the formatting loop writes is the text of the address |
| InetPrint.Format | unp/unpv13e/libfree/inet_ntop.c:161-186 | the formatting loop writes that text and stays inside the buffer |
| InetPrint.InetNtop4 | unp/unpv13e/libfree/inet_ntop.c:85-101 | the dotted quad and its NUL are written if the text without the NUL fits the size, else nothing is and the call fails |
| InetPrint.StaysInsideExactly | unp/unpv13e/libfree/inet_ntop.c:95-99 | whatever the buffer held, nothing past the size given changes exactly when the length of the text is not the size, or a NUL was already there |
| InetPrint.NulCanOverrun | unp/unpv13e/libfree/inet_ntop.c:95-99 | 0.0.0.0 with a size of seven overwrites the eighth character |
| InetPrint.InetNtop6 | unp/unpv13e/libfree/inet_ntop.c:109-198 | the text and its NUL are copied if they fit the caller's size, else nothing is written |
| RwRing.MaskIsMod | recv_engine/rw_ring.h:85 | masking with a power of two less one is the remainder |
| RwRing.PowerOfTwoTest | recv_engine/rw_ring.h:31 | the macro is true of a positive number exactly when it is a power of two |
| RwRing.IndicesCount | recv_engine/rw_ring.h:59-69 | the two subtractions count the entries and the free slots across any wrap-around |
| RwRing.SlotOfIndex | recv_engine/rw_ring.h:85 | the wrapped index leads to the slot of the n-th object ever put in |
| RwRing.SlotsDiffer | recv_engine/rw_ring.h:85-95 | objects in the ring together have different slots |
| RwRing.RwRing.Enqueue | recv_engine/rw_ring.h:79-88 | a bounded queue gets one more object, or is full and unchanged |
| RwRing.RwRing.Dequeue | recv_engine/rw_ring.h:90-98 | the oldest object leaves, or the queue is empty |
| RwRing.CreateRwRing | recv_engine/rw_ring.h:34-57 | null exactly for a count that is neither a power of two nor 0, or is too large; else an empty ring |
| WorkRings.WorkRings.TryNext | recv_engine/configs.h:99-104 | the ring that is next gets the group or is full; no other ring changes |
| WorkRings.WorkRings.WritePacketGroupWork | recv_engine/configs.h:93-108 | the first ring with room from the running index on gets the group, which fails exactly when all are full; where the index ends in both cases |
| PipelineSafety.InitInv | recv_engine/configs.cpp:132-185 | the initial rings and pools satisfy the invariant |
| PipelineSafety.ActionKeepsInv | recv_engine/mem_parquet_writer.cpp:82-199 | every action of every thread keeps the invariant |
| PipelineSafety.RunKeepsInv | recv_engine/packet_receiver.cpp:64-142 | so does every run |
| PipelineSafety.ReachableInv | recv_engine/configs.cpp:121-185 | every state reachable from the initial one satisfies it |
| PipelineSafety.EachHasOneOwner | recv_engine/packet_define.h:34-37 | in every reachable state each of the 8 groups and 8 buckets is in exactly one place |
| PipelineSafety.RowsAreConserved | recv_engine/packet_receiver.cpp:74-91 | the rows accepted are those in groups, open files, pending chunks and files written, none lost or doubled; which of the files written keep their names is `FileStore`'s matter |
| PipelineSafety.ScanFindsRoom | recv_engine/configs.h:93-108 | a receiver with a group finds a ring with room before one scan is over |
| PipelineSafety.WriteNeverRepeats | recv_engine/packet_receiver.cpp:68 | the busy-wait in the flush never starts a second scan |
| PipelineSafety.RowsFitTheGroup | recv_engine/packet_receiver.cpp:74-87 | a row is stored inside the arrays of its group |
| PipelineSafety.GroupsInRingsHaveRows | recv_engine/mem_parquet_writer.cpp:84-85 | the early return that would keep an empty group is never taken |
| PipelineSafety.GroupPoolHasRoom | recv_engine/mem_parquet_writer.cpp:119-123 | giving a group back never waits |
| PipelineSafety.BucketPoolHasRoom | recv_engine/ring_output_stream.cpp:24-33 | giving a bucket back never waits |
| PipelineSafety.BucketOutlivesChunks | recv_engine/ring_output_stream.cpp:39-42 | a chunk that is pending lies inside its bucket, which is not in the pool and belongs to no other lane |
| PipelineSafety.FinishedFilesAreWhole | recv_engine/hdfs_parquet_writer.cpp:47-87 | the chunks of a finished file tile it in order with one final chunk, at most one other, and if no open or write failed the file holds exactly what was encoded and was opened under the interval of its first chunk |
| PipelineIntact.IntactExactly | recv_engine/hdfs_parquet_writer.cpp:53-87 | in every reachable state a finished file is marked intact exactly when it was opened and holds its row groups and its footer, whatever became of earlier files |
| PipelineSafety.BucketsAreLargeEnough | recv_engine/ring_output_stream.cpp:61-64 | the copy into the bucket never passes its end |
| PipelineProgress.SaverMoves | recv_engine/hdfs_parquet_writer.cpp:53-87 | a file writer with a chunk can always go on itself |
| PipelineProgress.BucketWait | recv_engine/ring_output_stream.cpp:11-22 | a parquet writer that needs a bucket gets one, or none is free and some file writer, which is named, can go on |
| PipelineProgress.WriterMoves | recv_engine/mem_parquet_writer.cpp:153-199 | a parquet writer with work can go on itself, or its full ring waits for its own file writer, which can, or it waits for a bucket and some file writer can |
| PipelineProgress.NeverStuck | recv_engine/packet_receiver.cpp:93-142 | in every reachable state the receiver can go on without a timer, or it waits for an empty group, and then for a lane with work that can go on in that sense |
| PipelineDrains.RunsAreBounded | recv_engine/mem_parquet_writer.cpp:153-199 | without the receiver and the timers the writers take only so many steps, however they are scheduled: each takes from the work there is |
| PipelineDrains.EverythingCanBeStored | recv_engine/packet_receiver.cpp:93-142 | from every reachable state some run without another packet leaves every accepted packet in a finished file, and all files intact if none has failed before |
| PipelineReasons.HandsOverWhenAsked | recv_engine/packet_receiver.cpp:134-141 | in every reachable state a receiver that is handing its group over was asked to flush |
| PipelineReasons.OnlyFullGroups | recv_engine/packet_receiver.cpp:53-72 | in every run in which the receiver's timer does not go off only full groups are handed over, and every row group on file is full |
| PipelineReasons.OnlyLargeFiles | recv_engine/mem_parquet_writer.cpp:70-80 | in every run in which a parquet writer's timer does not go off it closes only files of at least the flush size |
| PipelineRequests.ReceiverAnswers | recv_engine/packet_receiver.cpp:58-71 | whatever happens after the receiver was asked to flush, it begins to hand its group over once that has a row |
| PipelineRequests.WriterAnswers | recv_engine/mem_parquet_writer.cpp:188-195 | whatever happens after a parquet writer was asked to flush, the next time it decides it closes its file, with all its row groups and the rest of its bytes |
| PipelineRequests.WorkComesFirst | recv_engine/mem_parquet_writer.cpp:158-165 | as long as a group is on its ring a parquet writer leaves its file as it is until it has taken that group |
| PipelineRequests.RingsTakeTurns | recv_engine/configs.h:93-108 | in every run the running index is the number of attempts made, so each attempt is at the ring behind that of the one before |
| PipelineRequests.GroupsQueue | recv_engine/mrmw_ring.h:32-45 | in every run what is in the pool of groups leaves it in its order, before whatever is put back later |
| PipelineRequests.BucketsQueue | recv_engine/mrmw_ring.h:32-45 | and so for the pool of buckets |
| PipelineOrder.OrderIsKept | recv_engine/packet_receiver.cpp:74-91 | in every reachable state the packets of each lane, from its finished files to its ring, are some of those accepted, in the order of their arrival, and the receiver holds the last |
| PipelineTimes.NamesAreExact | recv_engine/mem_parquet_writer.cpp:167-184 | the interval of a finished file runs from the least to the greatest second of its packets, and the interval it was opened under has such seconds for its bounds |
| FileNames.StrChr | search_engine/utils.cpp:46 | the first place of a character |
| FileNames.StrRChr | search_engine/utils.cpp:44 | the last place of a character |
| FileNames.NameReadsBack | recv_engine/hdfs_parquet_writer.cpp:40-45 | the search reads back from a name the interval it was built from, whatever the directory, if that has no dash |
| FileNames.NameIsSpelt | recv_engine/hdfs_parquet_writer.cpp:37-45 | the first second, the last one and the writer's number, in this order, as in `/data/1-2-3.parquet` |
| FileStore.AllFoundExactly | recv_engine/hdfs_parquet_writer.cpp:60-85 | every file a writer has finished and could open is found under its final name exactly when neither a later one nor the one now open was opened under that name, and no later one was to be given it |
| FileStore.OnlyOpeningLoses | recv_engine/hdfs_parquet_writer.cpp:60-85 | whatever names are taken, renaming loses no file: each is there under one of its two names unless a later one was opened under one of them |
| FileStore.SameNameExactly | recv_engine/hdfs_parquet_writer.cpp:37-44 | two names are the same exactly when interval and writer are |
| FileStore.StoredAreFoundExactly | recv_engine/hdfs_parquet_writer.cpp:24-85 | in every reachable state, with a file open or not, the finished files of a writer that could be opened are all found exactly when no final interval is that under which a later file was opened or is open, nor a later final one |
| FileClash.NamesCanClash | recv_engine/hdfs_parquet_writer.cpp:60-85 | there is a reachable state in which they are not: two packets of the same second in two intact files of one writer |
| FileClash.OpeningCanReplace | recv_engine/hdfs_parquet_writer.cpp:60-68 | there is one in which the only finished file of a writer is intact and not found, as the next has been opened under its name |
| FileSearch.SessionExactly | search_engine/dfs_parquet_rearder.cpp:185-222 | a packet is of the session asked for exactly when the protocol agrees, and both addresses do in either order, or else both ports do in either order, or else every field given does |
| FileSearch.MatchesExactly | search_engine/dfs_parquet_rearder.cpp:152-162 | a packet matches exactly when it is of the session and, if both bounds are given, its second is between them |
| FileSearch.RepliesMatch | search_engine/dfs_parquet_rearder.cpp:199-206 | with both addresses or both ports given a packet matches exactly when its reply would |
| FileSearch.KeptExactly | search_engine/hdfs_parquet_reader.cpp:93-98 | a file is handed on exactly when some second is both in its interval and between the bounds |
| FileSearch.FilterFilesExactly | search_engine/dfs_parquet_rearder.cpp:92-183 | a full scan finds a packet exactly when it matches and is in one of the files |
| FileSearch.PrunedEqualsFull | search_engine/hdfs_parquet_reader.cpp:93-98 | skipping files by name finds the same packets in the same order as reading all of them |
| FileSearch.SkipIsSafeExactly | search_engine/dfs_parquet_rearder.cpp:154-157 | it does so for all files exactly when both bounds are given, or only the lower one is absent and the upper one is at least every second there is |
| FileSearch.UnsafeSkipLoses | search_engine/hdfs_parquet_reader.cpp:95 | for any other bounds there is a file that is skipped although its packet matches |
| FileSearch.StoredIsWellNamed | recv_engine/mem_parquet_writer.cpp:167-184 | every row of a finished file lies in the interval of its name |
| SearchReader.SpendTakesWhatFits | search_engine/dfs_parquet_rearder.cpp:163-176 | the packets taken are a prefix of the matches, all of them exactly when the limit is not passed |
| SearchReader.DfsParquetReader.ScanEntry | search_engine/hdfs_parquet_reader.cpp:94-98 | an entry goes on the ring when the interval of its name meets the one asked for |
| SearchReader.DfsParquetReader.ReadFileFromDfs | search_engine/hdfs_parquet_reader.cpp:26-61 | a file that can be read has its matching rows taken, another is passed over and the search goes on |
| SearchReader.DfsParquetReader.DecodeGroup | search_engine/dfs_parquet_rearder.cpp:152-177 | the row loop takes the matching rows until the limit is passed |
| SearchReader.DfsParquetReader.DecodeParquet | search_engine/dfs_parquet_rearder.cpp:92-183 | and so the loop over row groups |
| SearchReader.DfsParquetReader.DoSearch | search_engine/dfs_parquet_rearder.cpp:38-90 | however scanner and reader take turns, and whichever files cannot be read, the search ends and finds what spending the limit on the filtered rows of the kept readable files gives |
| SearchReader.SearchEqualsFullScan | search_engine/dfs_parquet_rearder.cpp:38-90 | when the limit does not bind and skipping is safe it finds what filtering every readable file finds |
| SearchReader.FindableExactly | search_engine/hdfs_parquet_reader.cpp:26-61 | a packet can be found exactly when it matches and is in one of the files that can be read |
| PcapWriter.FoundFits | search_engine/dfs_parquet_rearder.cpp:163-176 | without a limit, or counting all, every match is taken; else the pcap file of those taken is within the limit and with the next one would not be; the size counted includes that one |
| PcapWriter.WritePcap | search_engine/disk_pcap_writer.cpp:25-61 | the file has a record for each packet found, in the order of their times |
| PcapWriter.SameSize | search_engine/disk_pcap_writer.cpp:42-51 | the size of the file does not depend on that order |
| EndToEnd.DirectoryIsListed | search_engine/hdfs_parquet_reader.cpp:78-101 | in every reachable state there is a listing of the directory, finished and open files alike, each once |
| EndToEnd.SearchFindsWhatIsStored | search_engine/dfs_parquet_rearder.cpp:38-90 | in every reachable state without a clash of intervals, open files included, such a search, over the directory in any order, finds each matching row as often as it is in a file written without a failure, and nothing else |
| EndToEnd.SearchFindsWhatWasAccepted | recv_engine/packet_receiver.cpp:74-91 | once all is stored it finds each matching packet as often as it was accepted, and nothing else |
| UniquePermutations.SwappedArranges | leetcode/permutations_ii.cpp:31-33 | exchanging two elements fixes one choice for the next place |
| UniquePermutations.ExtendList | leetcode/permutations_ii.cpp:26-34 | a value not seen before adds exactly the arrangements with it at the next place |
| UniquePermutations.ListComplete | leetcode/permutations_ii.cpp:25-34 | when every value has been seen nothing is missing |
| UniquePermutations.PermuteUniqueImpl | leetcode/permutations_ii.cpp:18-35 | all arrangements of the rest are appended, each once, and the vector is as before |
| UniquePermutations.PermuteUnique | leetcode/permutations_ii.cpp:12-16 | the result holds every distinct arrangement of the elements exactly once |
| NextPermutation.StepUpIsNext | leetcode/next_permutation.cpp:26-33 | raising the pivot least and ordering the rest gives the least greater arrangement |
| NextPermutation.WrapIsNext | leetcode/next_permutation.cpp:33 | of a descending vector nothing is greater, and the ascending one is right |
| NextPermutation.NextPermutation | leetcode/next_permutation.cpp:21-34 | the vector becomes the least rearrangement above it, or sorted if there is none |
| Partitioning.Sweep | algorithm/qsort.h:49-56 | smaller elements go before the pivot, the others after it, and only the range is rearranged |
| QuickSort.MedianOfThreePivot | algorithm/qsort.h:27-40 | the pivot is moved to the front and is never a strict maximum at the end of the range |
| QuickSort.Partition | algorithm/qsort.h:44-57 | the range is separated at the returned place, which lies before its end if the last element was the strict maximum |
| QuickSort.QSort | algorithm/qsort.h:61-69 | the range is sorted and rearranged; the measure shows that the call which includes the pivot ends |
| QuickSort.Sort | algorithm/qsort.h:73-75 | a non-empty vector is sorted and keeps its elements |
| Select.KthUnique | algorithm/qselect.h:41-129 | there is only one k-th smallest value |
| Select.KthOfSorted | algorithm/qselect.h:41-129 | however the elements are sorted, the k-th of them is the k-th smallest and nothing else is |
| Select.InPlace | algorithm/qselect.h:82-86 | an element that separates the vector is of the rank of its place |
| Select.RandomizedPartition | algorithm/qselect.h:59-72 | the range is separated at the returned place, whatever pivot the random number picks |
| Select.RandomizedSelectRange | algorithm/qselect.h:76-94 | the loop returns the k-th smallest of its range |
| Select.RandomizedSelect | algorithm/qselect.h:98-107 | the k-th smallest, the greatest for a larger k, 0 for an empty vector or k = 0 |
| Select.HeapSelect | algorithm/qselect.h:111-129 | the same with a heap, without changing the vector |
| Select.SelectionsAgree | algorithm/qselect.h:98-129 | the two selections return the same value for every choice of pivots |
| RandomList.InsertCopies | leetcode/copy_random_list.cpp:22-27 | every node is followed by a fresh copy with its label |
| RandomList.WireRandoms | leetcode/copy_random_list.cpp:29-34 | each copy's random pointer is the copy of the original's |
| RandomList.Unzip | leetcode/copy_random_list.cpp:35-44 | the two lists are taken apart and keep labels and random pointers |
| RandomList.CopyRandomList | leetcode/copy_random_list.cpp:19-46 | a list of fresh nodes with the same labels, next and random structure; the original is as before |
| CycleList.EndsOrRepeats | leetcode/cycle_list_ii.cpp:14 | after as many steps as there are nodes the list has ended or a node has come up twice |
| CycleList.LassoIsFirst | leetcode/cycle_list_ii.cpp:23 | where the cycle begins is the first node on it |
| CycleList.MeetingClosesUp | leetcode/cycle_list_ii.cpp:17-22 | after a meeting, walking on from it and from the head leads to the start of the cycle together |
| CycleList.FindEntry | leetcode/cycle_list_ii.cpp:18-23 | the second loop ends at the start of the cycle |
| CycleList.DetectCycle | leetcode/cycle_list_ii.cpp:12-27 | null exactly when the list ends, else the first node on the cycle; it always terminates |
| Cartesian.CartesianUnique | leetcode/maximum_binarytree.cpp:6-18 | a sequence has only one maximum tree |
| Cartesian.MaxElement | leetcode/maximum_binarytree.cpp:35 | the first place of the maximum |
| Cartesian.Construct | leetcode/maximum_binarytree.cpp:30-41 | the recursive builder gives the maximum tree of the sequence |
| Cartesian.MergeIsCartesian | leetcode/maximum_binarytree.cpp:86-109 | merging two maximum trees along their spines gives that of the concatenation |
| Cartesian.MergeCartesianTreeExactly | leetcode/maximum_binarytree.cpp:78-111 | with its null check the merge is right exactly when both trees are null or neither is |
| Cartesian.ConstructDAC | leetcode/maximum_binarytree.cpp:65-76 | the divide-and-conquer builder gives the maximum tree too |
| Cartesian.BuildersAgree | leetcode/maximum_binarytree.cpp:26-76 | both recursive builders give the same tree, duplicates or not |
| CartesianHeap.MergeShapesIsMerge | leetcode/maximum_binarytree.cpp:86-109 | merging the nodes merges the values, and keeps every node once |
| CartesianHeap.MergeCartesianTree | leetcode/maximum_binarytree.cpp:78-111 | the pointer loop relinks the nodes of both trees into the merged tree |
| CartesianHeap.ConstructImpl | leetcode/maximum_binarytree.cpp:30-41 | a linked tree of fresh nodes, the maximum tree of the values |
| CartesianHeap.ConstructDACImpl | leetcode/maximum_binarytree.cpp:65-76 | the same by merging halves |
| CartesianHeap.SpineIsCartesian | leetcode/maximum_binarytree.cpp:44-58 | a right spine of what was read so far is the maximum tree of it |
| CartesianHeap.PopFits | leetcode/maximum_binarytree.cpp:48-51 | a popped node with what hangs from it fits under the new node, and the order of the values is kept |
| CartesianHeap.ConstructIterative | leetcode/maximum_binarytree.cpp:44-58 | the builder with a stack links fresh nodes into the same tree |
| Traversals.InorderTraversal | leetcode/inorder_traversal.cpp:12-27 | the loop with a stack gives the recursive inorder traversal |
| Traversals.MirroredIsPostorder | leetcode/postorder_traversal.cpp:16-26 | reversing root-right-left gives the postorder |
| Traversals.PostorderTraversal | leetcode/postorder_traversal.cpp:12-28 | the loop and the reversal give the recursive postorder traversal |
| Traversals.Find | leetcode/traversal_to_binarytree.cpp:29 | the first place of a value, or the end |
| Traversals.BuiltHasTraversals | leetcode/traversal_to_binarytree.cpp:20-38 | whatever is built from two lists of one length has them as its traversals |
| Traversals.RebuildsExactly | leetcode/traversal_to_binarytree.cpp:20-38 | a tree is rebuilt from its traversals exactly when no node's value occurs to the left below it |
| Traversals.DistinctRebuild | leetcode/traversal_to_binarytree.cpp:9-10 | trees without duplicates are rebuilt |
| UniqueBsts.BstNode | leetcode/gen_unique_BSTS.cpp:24-36 | a search tree on a range of keys is a root and two search trees on the ranges around it |
| UniqueBsts.ProductsHold | leetcode/gen_unique_BSTS.cpp:27-34 | the two inner loops pair every left tree with every right tree once |
| UniqueBsts.NextRoot | leetcode/gen_unique_BSTS.cpp:24-35 | one more root adds exactly the search trees with that root |
| UniqueBsts.Combine | leetcode/gen_unique_BSTS.cpp:27-34 | the two inner loops append these pairs in order |
| UniqueBsts.GenerateTreesImpl | leetcode/gen_unique_BSTS.cpp:19-37 | exactly the search trees on the keys of the range, each once, as many as the recurrence counts |
| UniqueBsts.TreesAreListed | leetcode/gen_unique_BSTS.cpp:19-37 | the list the recursion builds holds exactly the search trees of the range, each once |
| UniqueBsts.GenerateTrees | leetcode/gen_unique_BSTS.cpp:12-17 | all search trees on 1 to n exactly when n is at least 1 |
| UniqueBsts.NumTreesExactly | leetcode/num_unique_BSTs.cpp:12-24 | however the search trees on 1 to n are listed, the value of `numTrees` is their number exactly when n is not negative |
| UniqueBsts.NumTrees | leetcode/num_unique_BSTs.cpp:12-24 | the recursion with its base cases computes that count |
| UniqueBsts.NumTreesDPImpl | leetcode/num_unique_BSTs.cpp:34-42 | the memo holds only zeros and right counts, and the entry asked for is filled in |
| UniqueBsts.NumTreesDP | leetcode/num_unique_BSTs.cpp:27-32 | the memoised count is the same from 1 on |
| QuadTree.UnionIsPointwise | leetcode/intersection_of_quard_tree.cpp:45-63 | cell by cell the result is the disjunction of the two grids |
| QuadTree.UnionIsReduced | leetcode/intersection_of_quard_tree.cpp:56-62 | no four equal leaves are left below a node |
| QuadTree.ReducedIsUnique | leetcode/intersection_of_quard_tree.cpp:11-17 | a grid has only one reduced tree |
| QuadTree.UnionCommutes | leetcode/intersection_of_quard_tree.cpp:45-63 | the order of the two trees does not matter |
| QuadTree.UnionAssociates | leetcode/intersection_of_quard_tree.cpp:45-63 | nor the order of several unions |
| StrCli.RunIsGood | unp/unpv13e/nonblock/strclinonb.c:22-123 | in every run, bytes read are bytes written followed by the buffered ones in both directions, pointers stay in bounds, an empty buffer is at its start, and the FIN count is 1 exactly when stdin has ended and everything is written, else 0 |
| StrCli.RunExtends | unp/unpv13e/nonblock/strclinonb.c:42-122 | a longer run only adds to what was read and written, and after the FIN nothing is sent and nothing was left unsent |
| StrCli.NeverIdle | unp/unpv13e/nonblock/strclinonb.c:28-39 | each direction can always be read or written, so a full buffer never blocks the loop |
| StrCli.DeliveredExactly | unp/unpv13e/nonblock/strclinonb.c:73-74 | when a round ends the loop normally, stdout has a prefix of the server's bytes, all of them exactly when nothing was waiting for stdout at the top of that round |
| StrCli.LastBytesMayBeLost | unp/unpv13e/nonblock/strclinonb.c:73-74 | there is a run that ends normally with bytes undelivered |
| StrCliRound.RoundExactly | unp/unpv13e/nonblock/strclinonb.c:42-122 | a round fails exactly when a call it makes fails, and otherwise ends exactly at the server's end of file; each direction takes in exactly the bytes read and gives out exactly those accepted, and writing is tried after a read as well as when the descriptor was ready |
| StrCliRound.NothingWaitsExactly | unp/unpv13e/nonblock/strclinonb.c:64-103 | after a round nothing waits for stdout exactly when there was nothing to print, or stdout was tried and took all of it |
| StrCliRound.NothingUnsentExactly | unp/unpv13e/nonblock/strclinonb.c:42-121 | and the same for the socket, the attempt right after a read from stdin included |
| StrCliRound.FullBuffersDrain | unp/unpv13e/nonblock/strclinonb.c:89-121 | a round in which the writers take everything goes on exactly when no read fails or meets the server's end of file, and then empties both buffers and a pending FIN has been sent |
| StrCliRound.FinWhenAllSent | unp/unpv13e/nonblock/strclinonb.c:52-57 | in every run the FIN has been sent, once, exactly when stdin has ended and all that was read from it has been sent |
| StrCliRound.RoomComesBackWhenEmpty | unp/unpv13e/nonblock/strclinonb.c:97-119 | as long as a buffer holds something its end moves by exactly what is read |
| StrCli.StrCli | unp/unpv13e/nonblock/strclinonb.c:4-124 | the loop over two arrays and four pointers does what the two queues do |
| WebFetcher.Socket | unp/unpv13e/nonblock/start_connect.c:11 | a descriptor that is not open |
| WebFetcher.FirstUntouched | unp/unpv13e/nonblock/web.c:35-37 | the first file whose flags are 0, or none |
| WebFetcher.ConnectOneKeeps | unp/unpv13e/nonblock/web.c:33-43 | while files are left a file is found and its connection keeps the invariant, so the error exit is unreachable |
| WebFetcher.ServeOneKeeps | unp/unpv13e/nonblock/web.c:49-79 | serving a file keeps the invariant, and no file goes back to an earlier state |
| WebFetcher.RoundKeeps | unp/unpv13e/nonblock/web.c:32-80 | so does a whole round |
| WebFetcher.RunIsGood | unp/unpv13e/nonblock/web.c:28-80 | in every state at the top of the loop the three counters are the numbers of active, untouched and unfinished files, the limit is kept, the descriptor sets are those of the flags, and no descriptor is leaked |
| WebFetcher.LeavingMeansDone | unp/unpv13e/nonblock/web.c:32 | when the loop is left every file is done, both sets are empty and the open descriptors are those of the start |
| WebFetcher.WaitsForSomethingExactly | unp/unpv13e/nonblock/web.c:45-47 | `select` has something to wait for exactly when the limit is at least 1 |
| WebFetcher.ServedAlone | unp/unpv13e/nonblock/web.c:49-79 | within a round each file is served by its own state alone |
| WebFetcher.ReadyMoves | unp/unpv13e/nonblock/web.c:54-77 | in every round a connection that is ready becomes a reader, a ready reader at end of file is done, and no other file changes |
| WebRound.ConnectAllStarts | unp/unpv13e/nonblock/web.c:33-43 | the inner loop starts exactly the first untouched files the limit allows, each with a new descriptor, as a reader if its `connect` succeeds at once and as connecting if not, and leaves the others alone |
| WebRound.RoundMoves | unp/unpv13e/nonblock/web.c:32-80 | the state and descriptor of every file after a whole round, from its state before the round and the system's answers |
| WebRound.MaxfdExactly | unp/unpv13e/nonblock/start_connect.c:25-27 | in every state at the top of the loop the largest descriptor is that of some file that was started and no other's is larger, or none was started and it is -1 |
| WebFetcher.Fetcher.SendGetCmd | unp/unpv13e/nonblock/write_get_cmd.c:3-18 | the flags, the read set and the largest descriptor change, nothing else |
| WebFetcher.Fetcher.StartConnecting | unp/unpv13e/nonblock/start_connect.c:3-31 | the transition with a new descriptor, for a connection in progress and for one made at once |
| WebFetcher.Fetcher.Connect | unp/unpv13e/nonblock/web.c:33-43 | the inner loop starts connections as the specification does |
| WebFetcher.Fetcher.Serve | unp/unpv13e/nonblock/web.c:50-78 | and so the body of the loop over the files |
| WebFetcher.Fetcher.Fetch | unp/unpv13e/nonblock/web.c:25-81 | and so the program, for any number of rounds |
| ReadLine.Reader.MyRead | unp/unpv13e/lib/readline.c:8-26 | the next byte of the stream, its end, or the failure met |
| ReadLine.Reader.Readline | unp/unpv13e/lib/readline.c:28-49 | a call stores the next line of the stream and its null byte in the caller's buffer, nothing beyond, and leaves the rest of the stream; after a failure no null byte |
| ReadLine.ChunkingDoesNotMatter | unp/unpv13e/lib/readline.c:12-21 | the stream, and so every line, depends on the bytes alone, not on how `read` cuts them or is interrupted |
| ReadLine.LineIsPrefix | unp/unpv13e/lib/readline.c:35-49 | a line is a prefix of the stream with no newline before its last byte, and stops only at a newline, the end or the room |
| ReadLine.CountsExactly | unp/unpv13e/lib/readline.c:42-48 | the value returned is the number of bytes stored exactly when the stream is shorter than the room or has a newline within it; else it is one more |
| ReadLine.CountCanBeWrong | unp/unpv13e/lib/readline.c:47-48 | two bytes in a buffer for three are reported as three |
| ReadLine.FailuresAreMet | unp/unpv13e/lib/readline.c:12-21 | each failing `read` and each end of file is met once, an interrupted one never |
| ReadLine.FailsExactly | unp/unpv13e/lib/readline.c:35-45 | a call returns -1 exactly when a failure comes before a newline, before the end of file and before the room is used up |
| ReadLine.LinesAreTheStream | unp/unpv13e/lib/readline.c:28-49 | all lines together are the stream |
| Checksum.OnesSumIsResidue | unp/unpv13e/libfree/in_cksum.c:11-15 | the one's complement sum is the residue of the sum modulo 0xffff that is 0 for 0 alone |
| Checksum.ChecksumExactly | unp/unpv13e/libfree/in_cksum.c:16-30 | for any `int` length the routine gives the complement of the one's complement sum exactly when the accumulator does not wrap |
| Checksum.NoOverflow | unp/unpv13e/libfree/in_cksum.c:7 | with at most 65537 words it does not wrap |
| Checksum.OverflowIsWrong | unp/unpv13e/libfree/in_cksum.c:7 | with 65538 words it can, and the result is wrong |
| Checksum.StoredChecksVerify | unp/unpv13e/ping/send_v4.c:18-19 | with its checksum stored in a zero word a buffer has checksum 0 |
| Checksum.PacketVerifies | unp/unpv13e/ping/send_v4.c:17-19 | so does the packet in memory, on either byte order, with an odd length too |
| Checksum.ChecksumSwaps | unp/unpv13e/libfree/in_cksum.c:16-31 | swapping the bytes of every word swaps those of the checksum |
| Checksum.SameBytesOnBothMachines | unp/unpv13e/libfree/in_cksum.c:16-31 | the stored bytes do not depend on the machine's byte order |
| Checksum.NumericalExample | unp/unpv13e/libfree/in_cksum.c:16-31 | the eight bytes of section 3 of RFC 1071 have the checksum given there, on machines of either byte order |
| Checksum.WordAt | unp/unpv13e/libfree/in_cksum.c:16-25 | which two bytes a word is loaded from; an odd last byte is paired with zero |
| Checksum.FoldsToResidue | unp/unpv13e/libfree/in_cksum.c:28-30 | the two folds of a 32-bit sum give its residue in the low half and do not overflow |
| Checksum.InCksum | unp/unpv13e/libfree/in_cksum.c:3-32 | the loop, the odd byte and the folds compute the checksum of the bytes given |

## Left out

- The pipeline's threads are one state machine over values, not classes with fields (only the rings and the scan are); it therefore does not show updates in place or the order of instructions within an action. Enqueue, dequeue, encoding a group, handing over a chunk and writing a chunk are one action each.
- Parquet encoding: a row group becomes arbitrary bytes that fit the room left by the largest footer; a footer is arbitrary bytes up to that room.
- Day directories of the second level, directory scans, names cut off at 64 bytes, and a root directory with a dash in it.
- Failed allocations, sockets, message queues, the distributed file system, configuration, logging, signals and statistics counters.
- More than one reader thread in a search.
- The file system is reduced to what `FileStore` says of it: opening for writing replaces a file of that name unless the open fails, renaming to a name that is taken is refused, and renaming does not fail for another reason. In `EndToEnd` a file that is still open, or some write of which failed, decodes to no rows.
- Negative times: seconds are the upper half of an unsigned 64-bit time.
- InetPrint.InetNtop4: the choice by address family is not modelled; where the source writes the NUL one past the size, the model's buffer has that character.
- WorkRings.WorkRings.WritePacketGroupWork: the index is unbounded; the source's `size_t` wraps at a multiple of the number of rings, so it names the same rings.
- RwRing.CreateRwRing: a failing `malloc` is not modelled.
- QuickSort.Sort: an empty vector, for which `size() - 1` wraps around, is excluded; so it is for `NextPermutation.NextPermutation` and `CartesianHeap.ConstructIterative`, which take the end or the front of the vector.
- UniqueBsts.NumTreesDP: an argument below 1 makes the source write outside its vector and is excluded; counts are unbounded integers, while the source's `int` holds them up to n = 19.
- UniqueBsts.GenerateTreesImpl: trees are values, so that subtrees shared between results are not visible.
- Traversals.BuiltHasTraversals: where the source's iterators would leave their ranges the model has no tree, and nothing is said about the program.
- Select.HeapSelect: the heap is kept as its elements in order; how `priority_queue` arranges them is not modelled.
- StrCli.StrCli: a run is as long as the list of rounds it is given; the descriptors' flags and the exit through `err_sys` after a failed call are reduced to an exit state.
- WebFetcher.Fetcher.Fetch: a failing `socket`, `connect`, `write` or name lookup ends the source's program and does not occur; a connection that fails after it was begun is only reported by the source, and goes on here as there.
- ReadLine.Reader.Readline: there is one descriptor; for a `maxlen` of 0 the source still stores a null byte, and the model's buffer has room for it.
- PcapWriter.WritePcap: a record is what `pcap_dump` is given; how libpcap lays out the numbers, and seconds or lengths beyond 32 bits, are not modelled, and the heap is kept as its elements in any order.
- Checksum.InCksum: memory is a sequence of bytes, of which the routine only reads.
- `median_of_median_select` and `isort`, `BST::remove`, `search_matrix`, floating-point code, and the remaining short solutions and demonstration programs.
